/**
 * Metadata as the record keeps it (an insertion-ordered dictionary from tag name to a
 * value or None), the audio tag map it is written into, the defaults table the audio
 * reader fills in, and the text the `Metadata` property prints.
 */
module Metadata {
  import opened Wrappers
  import opened Paths

  /** A dictionary value; `None` is Python's None. */
  type Value = Option<string>

  /**
   * A Python dict as its items in insertion order. A dict never holds a key twice
   * (`DistinctKeys`); the operations below do not rely on it, and where it matters the
   * lemmas say what it adds.
   */
  type Dict = seq<(string, Value)>

  predicate DistinctKeys(d: Dict)
  {
    forall i, j :: 0 <= i < j < |d| ==> d[i].0 != d[j].0
  }

  /** taglib's tag map: every tag name maps to a list of strings. */
  type TagMap = map<string, seq<string>>

  /** Item `i` gives the last value that is not None for its key. */
  predicate LastValueFor(d: Dict, i: int)
    requires 0 <= i < |d|
  {
    d[i].1.Some? && forall j :: i < j < |d| && d[j].0 == d[i].0 ==> d[j].1.None?
  }

  /**
   * The assignments `tags[key] = [value]` made for the items of `d` whose value is not
   * None, one after the other, so the last such value of a key is the one that stays.
   */
  function Written(d: Dict): (w: TagMap)
    ensures forall k :: k in w <==> exists i :: 0 <= i < |d| && d[i].0 == k && d[i].1.Some?
    ensures forall i :: 0 <= i < |d| && LastValueFor(d, i) ==> w[d[i].0] == [d[i].1.value]
  {
    if d == [] then map[]
    else
      var w := Written(d[..|d| - 1]);
      var (key, value) := d[|d| - 1];
      assert forall i :: 0 <= i < |d| - 1 ==> d[..|d| - 1][i] == d[i];
      if value.Some? then w[key := [value.value]] else w
  }

  /** For a real dict, every key with a value that is not None is written with that value. */
  lemma WrittenDistinct(d: Dict, i: int)
    requires DistinctKeys(d) && 0 <= i < |d| && d[i].1.Some?
    ensures Written(d)[d[i].0] == [d[i].1.value]
  {
    assert LastValueFor(d, i);
  }

  /** The tag map after the write loop: written keys replaced, every other tag kept. */
  function ApplyMetadata(tags: TagMap, d: Dict): (r: TagMap)
    ensures r.Keys == tags.Keys + Written(d).Keys
    ensures forall i :: 0 <= i < |d| && LastValueFor(d, i) ==> r[d[i].0] == [d[i].1.value]
    ensures forall k :: k in tags && (forall i :: 0 <= i < |d| && d[i].0 == k ==> d[i].1.None?) ==> r[k] == tags[k]
  {
    tags + Written(d)
  }

  /** An empty dictionary, or one whose values are all None, changes no tag. */
  lemma NothingWrittenWithoutValues(tags: TagMap, d: Dict)
    requires forall i :: 0 <= i < |d| ==> d[i].1.None?
    ensures ApplyMetadata(tags, d) == tags
  {
    assert Written(d) == map[];
  }

  /**
   * A record without metadata writes nothing: the getter's empty dictionary leaves every
   * tag as it was.
   */
  lemma NoMetadataWritesNothing(tags: TagMap)
    ensures ApplyMetadata(tags, OrEmpty(None)) == tags
    ensures forall d: Dict :: ApplyMetadata(tags, OrEmpty(Some(d))) == ApplyMetadata(tags, d)
  {
    NothingWrittenWithoutValues(tags, []);
  }

  /**
   * The loop of `_save_audio_metadata`: for each item in order, a value that is not None
   * replaces the tag of that name by a one-element list.
   */
  method WriteTags(tags: TagMap, d: Dict) returns (r: TagMap)
    ensures r == ApplyMetadata(tags, d)
  {
    r := tags;
    for i := 0 to |d|
      invariant r == tags + Written(d[..i])
    {
      var (key, value) := d[i];
      WrittenStep(d, i);
      if value.Some? {
        UpdateAfterUnion(tags, Written(d[..i]), key, [value.value]);
        r := r[key := [value.value]];
      }
    }
    assert d[..|d|] == d;
  }

  /** One more item: its value, when there is one, is written last. */
  lemma WrittenStep(d: Dict, i: int)
    requires 0 <= i < |d|
    ensures Written(d[..i + 1]) == if d[i].1.Some? then Written(d[..i])[d[i].0 := [d[i].1.value]] else Written(d[..i])
  {
    assert d[..i + 1][..i] == d[..i] && d[..i + 1][i] == d[i];
  }

  lemma UpdateAfterUnion(a: TagMap, b: TagMap, k: string, v: seq<string>)
    ensures (a + b)[k := v] == a + b[k := v]
  {
  }

  const AudioKeys: seq<string> := ["TITLE", "ARTIST", "ALBUM", "DATE"]

  /** `tags.get(key, [fallback])[0]`; an empty list raises IndexError, shown as None. */
  function FirstOr(tags: TagMap, key: string, fallback: string): Option<string>
  {
    if key !in tags then Some(fallback)
    else if tags[key] == [] then None
    else Some(tags[key][0])
  }

  /** The default of each of the four keys: the file name, "Unknown" twice, the mtime text. */
  function AudioDefaults(path: string, mtime: string): seq<string>
  {
    [Basename(path), "Unknown", "Unknown", mtime]
  }

  /**
   * `get_audio_metadata` once taglib has opened the file (`loaded` is None when it could
   * not). `mtime` is the formatted modification time.
   */
  function AudioMetadata(path: string, loaded: Option<TagMap>, mtime: string): (r: Option<Dict>)
    ensures r.Some? <==>
      loaded.Some? && forall i :: 0 <= i < |AudioKeys| && AudioKeys[i] in loaded.value ==> loaded.value[AudioKeys[i]] != []
    ensures r.Some? ==>
      |r.value| == |AudioKeys| && DistinctKeys(r.value)
      && forall i :: 0 <= i < |AudioKeys| ==>
        r.value[i].0 == AudioKeys[i]
        && r.value[i].1 == Some(if AudioKeys[i] in loaded.value then loaded.value[AudioKeys[i]][0]
                                else AudioDefaults(path, mtime)[i])
  {
    match loaded
    case None => None
    case Some(tags) =>
      var items := AudioItems(tags, AudioDefaults(path, mtime));
      if forall i :: 0 <= i < |items| ==> items[i].1.Some? then Some(items) else None
  }

  /** The four lookups of the table, in order. */
  function AudioItems(tags: TagMap, defaults: seq<string>): (items: Dict)
    requires |defaults| == |AudioKeys|
    ensures |items| == |AudioKeys| && DistinctKeys(items)
    ensures forall i :: 0 <= i < |AudioKeys| ==> items[i] == (AudioKeys[i], FirstOr(tags, AudioKeys[i], defaults[i]))
  {
    var items := seq(|AudioKeys|, i requires 0 <= i < |AudioKeys| => (AudioKeys[i], FirstOr(tags, AudioKeys[i], defaults[i])));
    assert forall i :: 0 <= i < |AudioKeys| ==> items[i].0 == AudioKeys[i];
    AudioKeysDistinct();
    items
  }

  lemma AudioKeysDistinct()
    ensures forall i, j :: 0 <= i < j < |AudioKeys| ==> AudioKeys[i] != AudioKeys[j]
  {
  }

  /** `Metadata_dict`: the dictionary, or an empty one when there is none. */
  function OrEmpty(md: Option<Dict>): Dict
  {
    if md.Some? then md.value else []
  }

  /** `str(value)` for a string or None. */
  function ValueText(v: Value): string
  {
    match v
    case None => "None"
    case Some(s) => s
  }

  /** The line `f"{key}: {value}"`. */
  function Line(item: (string, Value)): string
  {
    item.0 + ": " + ValueText(item.1)
  }

  function Lines(d: Dict): seq<string>
  {
    seq(|d|, i requires 0 <= i < |d| => Line(d[i]))
  }

  /** `"\n".join(lines)`. */
  function JoinLines(lines: seq<string>): string
  {
    if |lines| == 0 then []
    else if |lines| == 1 then lines[0]
    else lines[0] + "\n" + JoinLines(lines[1..])
  }

  /** `s.split("\n")`. */
  function SplitLines(s: string): (r: seq<string>)
    ensures |r| >= 1
  {
    if s == [] then [[]]
    else
      var rest := SplitLines(s[1..]);
      if s[0] == '\n' then [[]] + rest else [[s[0]] + rest[0]] + rest[1..]
  }

  lemma {:induction false} SplitPrefix(a: string, b: string)
    requires '\n' !in a
    ensures SplitLines(a + b) == [a + SplitLines(b)[0]] + SplitLines(b)[1..]
  {
    var sb := SplitLines(b);
    if a != [] {
      assert a[0] in a;
      assert (a + b)[1..] == a[1..] + b;
      assert '\n' !in a[1..] by { forall c | c in a[1..] ensures c in a {} }
      SplitPrefix(a[1..], b);
      var rest := SplitLines((a + b)[1..]);
      assert rest == [a[1..] + sb[0]] + sb[1..];
      assert rest[0] == a[1..] + sb[0] && rest[1..] == sb[1..];
      assert SplitLines(a + b) == [[a[0]] + rest[0]] + rest[1..];
      assert [a[0]] + (a[1..] + sb[0]) == a + sb[0];
    } else {
      assert a + b == b;
      assert a + sb[0] == sb[0];
      assert [sb[0]] + sb[1..] == sb;
    }
  }

  /** Splitting the joined text at newlines gives the lines back when none holds a newline. */
  lemma {:induction false} SplitJoinLines(lines: seq<string>)
    requires |lines| >= 1
    requires forall i :: 0 <= i < |lines| ==> '\n' !in lines[i]
    ensures SplitLines(JoinLines(lines)) == lines
  {
    if |lines| == 1 {
      SplitPrefix(lines[0], []);
      assert lines[0] + [] == lines[0] && SplitLines([]) == [[]];
      assert lines == [lines[0]];
    } else {
      SplitJoinLines(lines[1..]);
      var tail := JoinLines(lines[1..]);
      assert JoinLines(lines) == lines[0] + ("\n" + tail);
      SplitPrefix(lines[0], "\n" + tail);
      assert ("\n" + tail)[1..] == tail;
      var st := SplitLines("\n" + tail);
      assert st == [[]] + lines[1..];
      assert st[0] == [] && st[1..] == lines[1..];
      assert lines[0] + [] == lines[0];
      assert [lines[0]] + lines[1..] == lines;
    }
  }

  /** The `Metadata` property of a record named `name`: one line per item, or a notice. */
  function Describe(name: string, md: Option<Dict>): string
  {
    if md.Some? && md.value != [] then JoinLines(Lines(md.value)) else name + " has no metadata"
  }

  /** When no key or value holds a newline, the text splits back into exactly the item lines. */
  lemma DescribeSplits(name: string, d: Dict)
    requires d != []
    requires forall i :: 0 <= i < |d| ==> '\n' !in Line(d[i])
    ensures SplitLines(Describe(name, Some(d))) == Lines(d)
    ensures |Lines(d)| == |d| && forall i :: 0 <= i < |d| ==> Lines(d)[i] == d[i].0 + ": " + ValueText(d[i].1)
  {
    SplitJoinLines(Lines(d));
  }
}
