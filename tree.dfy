/**
 * The directory listing and its two walks. `clean_files` turns a listing (file names and
 * one-key dictionaries `{subdirectory name: listing}`) into a tree of records, building a
 * record for every file name under the joined path; `save_clean_files` saves every record
 * of such a tree, depth first and in order.
 */
module Tree {
  import opened Wrappers
  import opened Paths
  import opened Metadata
  import opened Whisperer

  /** An element of a listing: a file name, a dictionary, or a value of any other type. */
  datatype Item = Text(s: string) | DictOf(members: seq<Member>) | OtherValue

  /** One `key: value` pair of a dictionary item; the value is the sub-listing. */
  datatype Member = Member(key: string, items: seq<Item>)

  /**
   * The listings `clean_files` accepts: every element is a file name or a dictionary with
   * at least one key whose first value is itself accepted. An empty dictionary makes
   * `next(iter(...))` raise, and any other element raises explicitly.
   */
  predicate WellFormed(items: seq<Item>)
    decreases items
  {
    items == [] || (WellFormed(items[..|items| - 1]) && Accepted(items[|items| - 1]))
  }

  predicate Accepted(item: Item)
    decreases item
  {
    match item
    case Text(_) => true
    case DictOf(ms) => ms != [] && WellFormed(ms[0].items)
    case OtherValue => false
  }

  /** The tree `clean_files` returns: records, and one-key dictionaries of sub-trees. */
  datatype Entry = File(file: CleanFile) | Dir(name: string, entries: seq<Entry>)

  /** A tree with every record replaced by its name and path. */
  datatype Shape = FileShape(name: string, path: string) | DirShape(name: string, entries: seq<Shape>)

  /**
   * What `clean_files(items, base)` returns, as a shape, or None when it raises: each
   * element cleaned in order (`ExpectedItem`).
   */
  function Expected(items: seq<Item>, base: string): (r: Option<seq<Shape>>)
    ensures r.Some? <==> WellFormed(items)
    ensures r.Some? ==> |r.value| == |items|
    decreases items
  {
    if items == [] then Some([])
    else
      var n := |items| - 1;
      var init := Expected(items[..n], base);
      var next := ExpectedItem(items[n], base);
      if init.Some? && next.Some? then
        Some(init.value + [next.value])
      else None
  }

  /**
   * One element: a file name `s` becomes a record named `s` at `join(base, s)`; a
   * dictionary becomes a directory named after its first key, holding its first value
   * cleaned under `join(base, key)`; anything else raises.
   */
  function ExpectedItem(item: Item, base: string): (r: Option<Shape>)
    ensures r.Some? <==> Accepted(item)
    decreases item
  {
    match item
    case Text(s) => Some(FileShape(s, Join(base, s)))
    case DictOf(ms) =>
      if ms == [] then None
      else
        var sub := Expected(ms[0].items, Join(base, ms[0].key));
        if sub.Some? then Some(DirShape(ms[0].key, sub.value)) else None
    case OtherValue => None
  }

  /** Element `i` of the cleaned listing is element `i` of the listing, cleaned. */
  lemma {:induction false} ExpectedAt(items: seq<Item>, base: string, i: int)
    requires WellFormed(items) && 0 <= i < |items|
    ensures ExpectedItem(items[i], base) == Some(Expected(items, base).value[i])
  {
    var n := |items| - 1;
    var init := Expected(items[..n], base);
    var whole := init.value + [ExpectedItem(items[n], base).value];
    assert Expected(items, base).value == whole;
    if i < n {
      ExpectedAt(items[..n], base, i);
      assert items[..n][i] == items[i] && whole[i] == init.value[i];
    }
  }

  /** A file name of the listing becomes a record named after it, at `join(base, name)`. */
  lemma ListedFile(items: seq<Item>, base: string, i: int)
    requires WellFormed(items) && 0 <= i < |items| && items[i].Text?
    ensures Expected(items, base).value[i] == FileShape(items[i].s, Join(base, items[i].s))
  {
    ExpectedAt(items, base, i);
  }

  /** A dictionary of the listing becomes a directory: its first key, its first value cleaned under `join(base, key)`. */
  lemma ListedDir(items: seq<Item>, base: string, i: int)
    requires WellFormed(items) && 0 <= i < |items| && items[i].DictOf?
    ensures Accepted(items[i]) && WellFormed(items[i].members[0].items)
    ensures var m := items[i].members[0];
      Expected(items, base).value[i] == DirShape(m.key, Expected(m.items, Join(base, m.key)).value)
  {
    ExpectedAt(items, base, i);
  }

  /** Every element of an accepted listing is accepted, and nothing else is. */
  lemma {:induction false} WellFormedAt(items: seq<Item>)
    ensures WellFormed(items) <==> forall i :: 0 <= i < |items| ==> Accepted(items[i])
  {
    if items != [] {
      var n := |items| - 1;
      WellFormedAt(items[..n]);
      assert forall i :: 0 <= i < n ==> items[..n][i] == items[i];
    }
  }

  /** The records of a tree, depth first, in order. */
  function Files(es: seq<Entry>): seq<CleanFile>
    decreases es
  {
    if es == [] then [] else Files(es[..|es| - 1]) + FilesOf(es[|es| - 1])
  }

  function FilesOf(e: Entry): seq<CleanFile>
    decreases e
  {
    match e
    case File(f) => [f]
    case Dir(_, sub) => Files(sub)
  }

  /** The records of a tree, as a set of objects. */
  function Objects(es: seq<Entry>): set<object>
  {
    set f | f in Files(es) :: f
  }

  function ObjectsOf(e: Entry): set<object>
  {
    set f | f in FilesOf(e) :: f
  }

  /** The names and paths of the records of a tree, as a shape. */
  function Shapes(es: seq<Entry>): seq<Shape>
    reads Objects(es)
    decreases es
  {
    if es == [] then []
    else
      ObjectsSplit(es);
      Shapes(es[..|es| - 1]) + [ShapeOf(es[|es| - 1])]
  }

  lemma ObjectsSplit(es: seq<Entry>)
    requires es != []
    ensures Objects(es[..|es| - 1]) <= Objects(es) && ObjectsOf(es[|es| - 1]) <= Objects(es)
  {
    var a, b := Files(es[..|es| - 1]), FilesOf(es[|es| - 1]);
    assert Files(es) == a + b;
    forall f | f in a ensures f in Files(es) { assert f in a + b; }
    forall f | f in b ensures f in Files(es) { assert f in a + b; }
  }

  function ShapeOf(e: Entry): Shape
    reads ObjectsOf(e)
    decreases e
  {
    match e
    case File(f) => assert f in FilesOf(e); FileShape(f.name, f.path)
    case Dir(d, sub) => DirShape(d, Shapes(sub))
  }

  /** A record as `CleanFile(name, path)` leaves it: its originals are its name and path, its metadata what the path holds. */
  predicate Pristine(f: CleanFile, fs: FileSystem, probe: Probe)
    reads f
  {
    f.State() == NewRecord(f.name, f.path, fs, probe)
  }

  /** The fields of a record just built by `CleanFile(name, path)`. */
  function NewRecord(name: string, path: string, fs: FileSystem, probe: Probe): FileState
  {
    FileState(name, path, name, path, GetMetadataOmni(path, fs, probe))
  }

  /** No record appears twice. */
  predicate Distinct(files: seq<CleanFile>)
    decreases |files|
  {
    files == [] || (Distinct(files[..|files| - 1]) && files[|files| - 1] !in files[..|files| - 1])
  }

  /** `Distinct` is: no two positions hold the same record. */
  lemma {:induction false} DistinctIff(files: seq<CleanFile>)
    ensures Distinct(files) <==> forall i, j :: 0 <= i < j < |files| ==> files[i] != files[j]
    decreases |files|
  {
    if files != [] {
      var n := |files| - 1;
      var init := files[..n];
      DistinctIff(init);
      assert forall i :: 0 <= i < n ==> init[i] == files[i];
      assert files[n] !in init <==> forall i :: 0 <= i < n ==> files[i] != files[n];
    }
  }

  lemma DistinctAppend(a: seq<CleanFile>, b: seq<CleanFile>)
    requires Distinct(a) && Distinct(b)
    requires forall f :: f in a ==> f !in b
    ensures Distinct(a + b)
  {
    DistinctIff(a);
    DistinctIff(b);
    forall i, j | 0 <= i < j < |a + b| ensures (a + b)[i] != (a + b)[j] {
      if j >= |a| && i < |a| {
        assert (a + b)[i] in a && (a + b)[j] in b;
      } else if j >= |a| {
        assert (a + b)[i] == b[i - |a|] && (a + b)[j] == b[j - |a|];
      }
    }
    DistinctIff(a + b);
  }

  /**
   * `clean_files`: walk the listing in order, building a record for every file name and
   * recursing into every dictionary's first value; None when it raises. The records are
   * new objects, no two the same, each as its constructor leaves it.
   */
  method CleanFiles(items: seq<Item>, base: string, fs: FileSystem, probe: Probe) returns (r: Option<seq<Entry>>)
    ensures r.Some? <==> WellFormed(items)
    ensures r.Some? ==> Expected(items, base) == Some(Shapes(r.value))
    ensures r.Some? ==> forall f :: f in Files(r.value) ==> fresh(f) && Pristine(f, fs, probe)
    ensures r.Some? ==> Distinct(Files(r.value))
    decreases items
  {
    var out: seq<Entry> := [];
    for i := 0 to |items|
      invariant Expected(items[..i], base) == Some(Shapes(out))
      invariant forall f :: f in Files(out) ==> fresh(f) && Pristine(f, fs, probe)
      invariant Distinct(Files(out))
    {
      ExpectedStep(items, base, i);
      FilesAllocated(out);
      ghost var shapes := Shapes(out);
      var e := CleanItem(items[i], base, fs, probe);
      if e.None? {
        WellFormedAt(items);
        return None;
      }
      assert Shapes(out) == shapes;
      AppendEntry(out, e.value);
      DistinctAppend(Files(out), FilesOf(e.value));
      ShapesAppend(out, e.value);
      out := out + [e.value];
    }
    assert items[..|items|] == items;
    r := Some(out);
  }

  /**
   * `get_directory_contents`: the listing of the cleaned path (supplied here, since the
   * directory walk is external) is turned into records under the path as the caller typed
   * it, not the cleaned one.
   */
  method GetDirectoryContents(path: string, listing: seq<Item>, fs: FileSystem, probe: Probe) returns (r: Option<seq<Entry>>)
    ensures r.Some? <==> WellFormed(listing)
    ensures r.Some? ==> Expected(listing, path) == Some(Shapes(r.value))
    ensures r.Some? ==> forall f :: f in Files(r.value) ==> fresh(f) && Pristine(f, fs, probe)
    ensures r.Some? ==> Distinct(Files(r.value))
  {
    r := CleanFiles(listing, path, fs, probe);
  }

  /** One element of the listing: a new record, or the cleaned sub-listing of a dictionary. */
  method CleanItem(item: Item, base: string, fs: FileSystem, probe: Probe) returns (r: Option<Entry>)
    ensures r.Some? <==> Accepted(item)
    ensures r.Some? ==> ExpectedItem(item, base) == Some(ShapeOf(r.value))
    ensures r.Some? ==> forall f :: f in FilesOf(r.value) ==> fresh(f) && Pristine(f, fs, probe)
    ensures r.Some? ==> Distinct(FilesOf(r.value))
    decreases item
  {
    match item
    case Text(s) =>
      var f := new CleanFile(s, Join(base, s), fs, probe);
      r := Some(File(f));
    case DictOf(ms) =>
      if ms == [] {
        return None;
      }
      var sub := CleanFiles(ms[0].items, Join(base, ms[0].key), fs, probe);
      if sub.None? {
        return None;
      }
      r := Some(Dir(ms[0].key, sub.value));
    case OtherValue =>
      r := None;
  }

  /** One more element of the listing: the cleaned prefix grows by that element, cleaned. */
  lemma ExpectedStep(items: seq<Item>, base: string, i: int)
    requires 0 <= i < |items|
    ensures var init := Expected(items[..i], base);
      var next := ExpectedItem(items[i], base);
      Expected(items[..i + 1], base) == if init.Some? && next.Some? then Some(init.value + [next.value]) else None
  {
    assert items[..i + 1][..i] == items[..i] && items[..i + 1][i] == items[i];
  }

  lemma ShapesAppend(es: seq<Entry>, e: Entry)
    ensures Shapes(es + [e]) == Shapes(es) + [ShapeOf(e)]
  {
    assert (es + [e])[..|es|] == es;
  }

  lemma {:induction false} FilesAllocated(es: seq<Entry>)
    ensures forall g :: g in Files(es) ==> allocated(g)
    ensures forall g :: g in Objects(es) ==> allocated(g)
    decreases es
  {
    if es != [] {
      FilesAllocated(es[..|es| - 1]);
      assert Files(es) == Files(es[..|es| - 1]) + FilesOf(es[|es| - 1]);
      match es[|es| - 1]
      case File(f) =>
      case Dir(_, sub) =>
        FilesAllocated(sub);
        assert FilesOf(es[|es| - 1]) == Files(sub);
    }
  }

  /** Appending an entry appends its records. */
  lemma AppendEntry(es: seq<Entry>, e: Entry)
    ensures (es + [e])[..|es|] == es
    ensures Files(es + [e]) == Files(es) + FilesOf(e)
  {
    assert (es + [e])[..|es|] == es;
  }

  /** The fields of a list of records. */
  function States(files: seq<CleanFile>): (r: seq<FileState>)
    reads files
    ensures |r| == |files|
  {
    seq(|files|, k reads files requires 0 <= k < |files| => files[k].State())
  }

  lemma StatesAppend(a: seq<CleanFile>, b: seq<CleanFile>)
    ensures States(a + b) == States(a) + States(b)
  {
    assert forall k :: 0 <= k < |a + b| ==> States(a + b)[k] == (States(a) + States(b))[k];
  }

  /** One save step: the record's fields and the disk before, the outcome after. */
  type Step = (FileState, FileSystem) -> SaveOutcome

  /**
   * `step` is the save step of a record, `SaveSpec`. The save walk takes it as a parameter so
   * that its proofs can treat the step as opaque; the trigger lets the fact out only where a
   * record is saved.
   */
  ghost predicate SavesLikeRecords(step: Step)
  {
    forall st, fs {:trigger SaveSpec(st, fs)} :: step(st, fs) == SaveSpec(st, fs)
  }

  /**
   * The save steps of a list of records, one after the other on the changing disk: the new
   * fields of every record and the disk at the end. `save_clean_files` takes `SaveSpec`
   * as the step.
   */
  function SaveAll(step: Step, sts: seq<FileState>, fs: FileSystem): (r: (seq<FileState>, FileSystem))
    ensures |r.0| == |sts|
  {
    if sts == [] then ([], fs)
    else
      var n := |sts| - 1;
      var (init, fs1) := SaveAll(step, sts[..n], fs);
      var o := step(sts[n], fs1);
      (init + [o.state], o.fs)
  }

  /** Saving a list is saving its first part, then the rest on the disk the first part left. */
  lemma {:induction false} SaveAllAppend(step: Step, a: seq<FileState>, b: seq<FileState>, fs: FileSystem)
    ensures var (sa, fa) := SaveAll(step, a, fs); var (sb, fb) := SaveAll(step, b, fa);
      SaveAll(step, a + b, fs) == (sa + sb, fb)
    decreases |b|
  {
    if b == [] {
      assert a + b == a;
      var sa := SaveAll(step, a, fs);
      assert SaveAll(step, b, sa.1) == ([], sa.1);
      assert sa.0 + [] == sa.0;
    } else {
      var n := |b| - 1;
      assert (a + b)[..|a + b| - 1] == a + b[..n];
      assert (a + b)[|a + b| - 1] == b[n];
      SaveAllAppend(step, a, b[..n], fs);
      var sa := SaveAll(step, a, fs);
      var sb := SaveAll(step, b[..n], sa.1);
      var o := step(b[n], sb.1);
      assert SaveAll(step, b, sa.1) == (sb.0 + [o.state], o.fs);
      assert SaveAll(step, a + b, fs) == ((sa.0 + sb.0) + [o.state], o.fs);
      assert (sa.0 + sb.0) + [o.state] == sa.0 + (sb.0 + [o.state]);
    }
  }

  /** Any step that is the save step of a record saves a list as `SaveSpec` itself does. */
  lemma {:induction false} SaveAllLikeRecords(step: Step, sts: seq<FileState>, fs: FileSystem)
    requires SavesLikeRecords(step)
    ensures SaveAll(step, sts, fs) == SaveAll(SaveSpec, sts, fs)
    decreases |sts|
  {
    if sts != [] {
      var n := |sts| - 1;
      SaveAllLikeRecords(step, sts[..n], fs);
      var fs1 := SaveAll(SaveSpec, sts[..n], fs).1;
      assert step(sts[n], fs1) == SaveSpec(sts[n], fs1);
    }
  }

  /** A step that keeps a record's name, path and metadata keeps them for every record of a list. */
  lemma {:induction false} SaveAllKeepsFields(step: Step, sts: seq<FileState>, fs: FileSystem, i: int)
    requires forall st, f :: SameFields(step(st, f).state, st)
    requires 0 <= i < |sts|
    ensures SameFields(SaveAll(step, sts, fs).0[i], sts[i])
    decreases |sts|
  {
    var n := |sts| - 1;
    if i < n {
      SaveAllKeepsFields(step, sts[..n], fs, i);
      assert sts[..n][i] == sts[i];
    }
  }

  /** A step that neither creates nor loses a file does not over a whole list either. */
  lemma {:induction false} SaveAllKeepsCount(step: Step, sts: seq<FileState>, fs: FileSystem)
    requires forall st, f :: |step(st, f).fs| == |f|
    ensures |SaveAll(step, sts, fs).1| == |fs|
    decreases |sts|
  {
    if sts != [] {
      SaveAllKeepsCount(step, sts[..|sts| - 1], fs);
    }
  }

  predicate SameFields(a: FileState, b: FileState)
  {
    a.name == b.name && a.path == b.path && a.metadata == b.metadata
  }

  /**
   * `save_clean_files` keeps every record's name, path and metadata, lets only the originals
   * catch up, and neither creates nor loses a file.
   */
  lemma SaveCleanFilesKeeps(sts: seq<FileState>, fs: FileSystem)
    ensures |SaveAll(SaveSpec, sts, fs).1| == |fs|
    ensures forall i :: 0 <= i < |sts| ==> SameFields(SaveAll(SaveSpec, sts, fs).0[i], sts[i])
  {
    forall st, f ensures SameFields(SaveSpec(st, f).state, st) && |SaveSpec(st, f).fs| == |f| {
    }
    SaveAllKeepsCount(SaveSpec, sts, fs);
    forall i | 0 <= i < |sts| ensures SameFields(SaveAll(SaveSpec, sts, fs).0[i], sts[i]) {
      SaveAllKeepsFields(SaveSpec, sts, fs, i);
    }
  }

  /** The records of the first entries of a tree come first among its records. */
  lemma {:induction false} FilesPrefix(es: seq<Entry>, j: int)
    requires 0 <= j <= |es|
    ensures |Files(es[..j])| <= |Files(es)| && Files(es[..j]) == Files(es)[..|Files(es[..j])|]
    decreases |es|
  {
    if j < |es| {
      var n := |es| - 1;
      assert es[..n][..j] == es[..j];
      FilesPrefix(es[..n], j);
    } else {
      assert es[..j] == es;
      assert Files(es)[..|Files(es)|] == Files(es);
    }
  }

  /**
   * `save_clean_files`: save every record of the tree, depth first and in order, and answer
   * True. The tree holds no empty dictionary, so the loop never raises. The walk is proved
   * for any `step` that is the record save step, which keeps `SaveSpec` folded inside the
   * proof; the second ensures states the outcome with `SaveSpec` itself.
   */
  method SaveCleanFiles(ghost step: Step, es: seq<Entry>, fs: FileSystem) returns (ok: bool, fs': FileSystem)
    requires SavesLikeRecords(step) && Distinct(Files(es))
    modifies Objects(es)
    ensures ok
    ensures (States(Files(es)), fs') == SaveAll(step, old(States(Files(es))), fs)
    ensures (States(Files(es)), fs') == SaveAll(SaveSpec, old(States(Files(es))), fs)
    decreases es, 3
  {
    ghost var F := Files(es);
    ghost var S0 := States(F);
    ghost var p := 0;
    fs' := fs;
    for i := 0 to |es|
      invariant 0 <= p <= |F| && F[..p] == Files(es[..i])
      invariant (States(F[..p]), fs') == SaveAll(step, S0[..p], fs)
      invariant States(F[p..]) == S0[p..]
    {
      EntryObjects(es, i);
      fs', p := SaveNext(step, es, i, F, S0, p, fs, fs');
    }
    assert es[..|es|] == es;
    assert F[..p] == F;
    assert S0[..p] == S0;
    SaveAllLikeRecords(step, S0, fs);
    ok := true;
  }

  /**
   * One turn of the loop of `save_clean_files`: save the `i`-th entry, whose records come
   * after the `p` records already saved.
   */
  method SaveNext(ghost step: Step, es: seq<Entry>, i: int, ghost F: seq<CleanFile>, ghost S0: seq<FileState>, ghost p: int,
                  ghost fs0: FileSystem, fs: FileSystem) returns (fs': FileSystem, ghost p': int)
    requires SavesLikeRecords(step)
    requires 0 <= i < |es| && F == Files(es) && Distinct(F) && |S0| == |F|
    requires 0 <= p <= |F| && F[..p] == Files(es[..i])
    requires (States(F[..p]), fs) == SaveAll(step, S0[..p], fs0)
    requires States(F[p..]) == S0[p..]
    modifies ObjectsOf(es[i])
    ensures p <= p' <= |F| && F[..p'] == Files(es[..i + 1])
    ensures (States(F[..p']), fs') == SaveAll(step, S0[..p'], fs0)
    ensures States(F[p'..]) == S0[p'..]
    decreases es, 2
  {
    SaveStepSetup(es, i, F, p);
    fs' := SaveSlice(step, es[i], F, S0, p, fs0, fs);
    p' := p + |FilesOf(es[i])|;
  }

  /** Save the records `F[p..p + m]` of one entry, after the `p` records already saved. */
  method SaveSlice(ghost step: Step, e: Entry, ghost F: seq<CleanFile>, ghost S0: seq<FileState>, ghost p: int,
                   ghost fs0: FileSystem, fs: FileSystem) returns (fs': FileSystem)
    requires SavesLikeRecords(step) && Distinct(FilesOf(e)) && |S0| == |F|
    requires 0 <= p && p + |FilesOf(e)| <= |F| && F[p..p + |FilesOf(e)|] == FilesOf(e)
    requires forall k :: 0 <= k < p ==> F[k] !in ObjectsOf(e)
    requires forall k :: p + |FilesOf(e)| <= k < |F| ==> F[k] !in ObjectsOf(e)
    requires (States(F[..p]), fs) == SaveAll(step, S0[..p], fs0)
    requires States(F[p..]) == S0[p..]
    modifies ObjectsOf(e)
    ensures (States(F[..p + |FilesOf(e)|]), fs') == SaveAll(step, S0[..p + |FilesOf(e)|], fs0)
    ensures States(F[p + |FilesOf(e)|..]) == S0[p + |FilesOf(e)|..]
    decreases e, 2
  {
    ghost var G := FilesOf(e);
    ghost var m := |G|;
    SplitStates(F, S0, p, m);
    fs' := SaveEntryAmong(step, e, F, p, fs);
    JoinStates(step, F, S0, p, m, fs0, fs, fs');
  }

  lemma EntryObjects(es: seq<Entry>, i: int)
    requires 0 <= i < |es|
    ensures ObjectsOf(es[i]) <= Objects(es)
  {
    var F, p, G := Files(es), |Files(es[..i])|, FilesOf(es[i]);
    FilesPrefix(es, i);
    EntryPosition(es, i, F, p);
    forall f | f in G ensures f in Objects(es) {
      var k :| 0 <= k < |G| && G[k] == f;
      assert F[p..p + |G|][k] == F[p + k];
      assert f in F;
    }
  }

  /** Saving one entry of a list of records leaves the records before and after it alone. */
  method SaveEntryAmong(ghost step: Step, e: Entry, ghost F: seq<CleanFile>, ghost p: int, fs: FileSystem) returns (fs': FileSystem)
    requires SavesLikeRecords(step) && Distinct(FilesOf(e))
    requires 0 <= p && p + |FilesOf(e)| <= |F|
    requires forall k :: 0 <= k < p ==> F[k] !in ObjectsOf(e)
    requires forall k :: p + |FilesOf(e)| <= k < |F| ==> F[k] !in ObjectsOf(e)
    modifies ObjectsOf(e)
    ensures (States(FilesOf(e)), fs') == SaveAll(step, old(States(FilesOf(e))), fs)
    ensures States(F[..p]) == old(States(F[..p]))
    ensures States(F[p + |FilesOf(e)|..]) == old(States(F[p + |FilesOf(e)|..]))
    decreases e, 1
  {
    ghost var q := p + |FilesOf(e)|;
    ghost var done, rest := States(F[..p]), States(F[q..]);
    fs' := SaveEntry(step, e, fs);
    forall k | 0 <= k < p ensures States(F[..p])[k] == done[k] {
      assert F[..p][k] == F[k];
    }
    forall j | 0 <= j < |F| - q ensures States(F[q..])[j] == rest[j] {
      assert F[q..][j] == F[q + j];
    }
  }

  /** One entry of a tree: a record saves itself; a directory saves its tree. */
  method SaveEntry(ghost step: Step, e: Entry, fs: FileSystem) returns (fs': FileSystem)
    requires SavesLikeRecords(step) && Distinct(FilesOf(e))
    modifies ObjectsOf(e)
    ensures (States(FilesOf(e)), fs') == SaveAll(step, old(States(FilesOf(e))), fs)
    decreases e, 0
  {
    match e
    case File(f) =>
      assert FilesOf(e) == [f] && f in FilesOf(e);
      fs' := SaveRecord(step, f, fs);
    case Dir(_, sub) =>
      assert FilesOf(e) == Files(sub);
      var _, fs1 := SaveCleanFiles(step, sub, fs);
      fs' := fs1;
  }

  /** A record on its own: `Save`, which is one step of the walk. */
  method SaveRecord(ghost step: Step, f: CleanFile, fs: FileSystem) returns (fs': FileSystem)
    requires SavesLikeRecords(step)
    modifies f
    ensures (States([f]), fs') == SaveAll(step, [old(f.State())], fs)
  {
    ghost var st := f.State();
    fs' := f.Save(fs);
    SaveAllOne(step, st, fs);
    assert step(st, fs) == SaveSpec(st, fs);
    assert States([f]) == [f.State()];
  }

  lemma SaveAllOne(step: Step, st: FileState, fs: FileSystem)
    ensures SaveAll(step, [st], fs) == ([step(st, fs).state], step(st, fs).fs)
  {
    assert [st][..0] == [];
    assert SaveAll(step, [], fs) == ([], fs);
    assert [] + [step(st, fs).state] == [step(st, fs).state];
  }

  /** Where the `i`-th entry's records sit among the tree's records, and what it may modify. */
  lemma SaveStepSetup(es: seq<Entry>, i: int, F: seq<CleanFile>, p: int)
    requires 0 <= i < |es| && F == Files(es) && Distinct(F)
    requires 0 <= p <= |F| && F[..p] == Files(es[..i])
    ensures var G := FilesOf(es[i]);
      p + |G| <= |F| && F[p..p + |G|] == G && F[..p + |G|] == Files(es[..i + 1])
      && Distinct(G)
      && (forall k :: 0 <= k < p ==> F[k] !in ObjectsOf(es[i]))
      && (forall k :: p + |G| <= k < |F| ==> F[k] !in ObjectsOf(es[i]))
  {
    var G := FilesOf(es[i]);
    EntryPosition(es, i, F, p);
    SliceApart(F, p, p + |G|);
  }

  lemma EntryPosition(es: seq<Entry>, i: int, F: seq<CleanFile>, p: int)
    requires 0 <= i < |es| && F == Files(es)
    requires 0 <= p <= |F| && F[..p] == Files(es[..i])
    ensures var G := FilesOf(es[i]);
      p + |G| <= |F| && F[p..p + |G|] == G && F[..p + |G|] == Files(es[..i + 1])
  {
    var G := FilesOf(es[i]);
    AppendEntry(es[..i], es[i]);
    assert es[..i] + [es[i]] == es[..i + 1];
    FilesPrefix(es, i + 1);
    assert F[..p + |G|] == F[..p] + G;
    assert F[p..p + |G|] == (F[..p] + G)[p..];
  }

  /** A slice of a list of distinct records holds distinct records, none of them outside it. */
  lemma SliceApart(F: seq<CleanFile>, p: int, q: int)
    requires Distinct(F) && 0 <= p <= q <= |F|
    ensures Distinct(F[p..q])
    ensures forall k :: 0 <= k < p ==> F[k] !in F[p..q]
    ensures forall k :: q <= k < |F| ==> F[k] !in F[p..q]
  {
    DistinctIff(F);
    DistinctIff(F[p..q]);
    forall a, b | 0 <= a < b < q - p ensures F[p..q][a] != F[p..q][b] {
      assert F[p..q][a] == F[p + a] && F[p..q][b] == F[p + b];
    }
    forall j | 0 <= j < p || q <= j < |F| ensures F[j] !in F[p..q] {
      forall k | 0 <= k < q - p ensures F[p..q][k] != F[j] {
        assert F[p..q][k] == F[p + k];
      }
    }
  }

  /** The records not yet saved split into the next entry's and the rest. */
  lemma SplitStates(F: seq<CleanFile>, S0: seq<FileState>, p: int, m: int)
    requires 0 <= p && 0 <= m && p + m <= |F| == |S0|
    requires States(F[p..]) == S0[p..]
    ensures States(F[p..p + m]) == S0[p..p + m] && States(F[p + m..]) == S0[p + m..]
  {
    assert F[p..] == F[p..p + m] + F[p + m..];
    StatesAppend(F[p..p + m], F[p + m..]);
    var x, y := States(F[p..p + m]), States(F[p + m..]);
    assert S0[p..] == x + y;
    assert S0[p..p + m] == S0[p..][..m] == (x + y)[..m] == x;
    assert S0[p + m..] == S0[p..][m..] == (x + y)[m..] == y;
  }

  /** The saved records grow by the next entry's, saved on the disk the earlier ones left. */
  lemma JoinStates(step: Step, F: seq<CleanFile>, S0: seq<FileState>, p: int, m: int, fs: FileSystem, mid: FileSystem, last: FileSystem)
    requires 0 <= p && 0 <= m && p + m <= |F| == |S0|
    requires (States(F[..p]), mid) == SaveAll(step, S0[..p], fs)
    requires (States(F[p..p + m]), last) == SaveAll(step, S0[p..p + m], mid)
    ensures (States(F[..p + m]), last) == SaveAll(step, S0[..p + m], fs)
  {
    assert F[..p + m] == F[..p] + F[p..p + m];
    assert S0[..p + m] == S0[..p] + S0[p..p + m];
    StatesAppend(F[..p], F[p..p + m]);
    SaveAllAppend(step, S0[..p], S0[p..p + m], fs);
  }
}
