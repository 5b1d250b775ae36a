/**
 * Extension-based dispatch: a path is audio, image or neither according to a
 * case-sensitive suffix test against two fixed lists, the audio list tried first.
 */
module Formats {
  import opened Paths

  const AudioFormats: seq<string> := [
    ".mp3", ".wav", ".flac", ".opus", ".aac", ".ogg", ".m4a", ".wma",
    ".alac", ".aiff", ".dsd", ".amr", ".mp2", ".mid", ".caf"
  ]

  const ImageFormats: seq<string> := [
    ".jpg", ".jpeg", ".png", ".gif", ".bmp", ".tiff", ".tif", ".webp",
    ".ico", ".svg", ".heif", ".heic", ".jp2", ".jxl", ".psd", ".xcf",
    ".dds", ".raw", ".cr2", ".nef", ".arw", ".dng", ".orf", ".rw2"
  ]

  datatype Kind = Audio | Image | Unsupported

  /** `any(path.endswith(f) for f in formats)`, tried in list order. */
  function AnyEndsWith(path: string, formats: seq<string>): (r: bool)
    ensures r <==> exists i :: 0 <= i < |formats| && EndsWith(path, formats[i])
  {
    if formats == [] then false
    else EndsWith(path, formats[0]) || AnyEndsWith(path, formats[1..])
  }

  /** The classification both dispatchers apply (audio tested before image). */
  function KindOf(path: string): (k: Kind)
    ensures k == Audio <==> exists i :: 0 <= i < |AudioFormats| && EndsWith(path, AudioFormats[i])
    ensures k == Image <==>
      (forall i :: 0 <= i < |AudioFormats| ==> !EndsWith(path, AudioFormats[i]))
      && exists i :: 0 <= i < |ImageFormats| && EndsWith(path, ImageFormats[i])
    ensures k == Unsupported <==>
      (forall i :: 0 <= i < |AudioFormats| ==> !EndsWith(path, AudioFormats[i]))
      && (forall i :: 0 <= i < |ImageFormats| ==> !EndsWith(path, ImageFormats[i]))
  {
    if AnyEndsWith(path, AudioFormats) then Audio
    else if AnyEndsWith(path, ImageFormats) then Image
    else Unsupported
  }

  /** A dot-led extension with no further dot. */
  predicate Dotted(e: string)
  {
    |e| >= 2 && e[0] == ExtSep && forall k :: 1 <= k < |e| ==> e[k] != ExtSep
  }

  /** Every listed format is a single dotted extension. */
  lemma FormatsAreDotted()
    ensures forall i :: 0 <= i < |AudioFormats| ==> Dotted(AudioFormats[i])
    ensures forall i :: 0 <= i < |ImageFormats| ==> Dotted(ImageFormats[i])
  {
    AudioFormatsDotted();
    ImageFormatsDotted();
  }

  lemma AudioFormatsDotted()
    ensures forall i :: 0 <= i < |AudioFormats| ==> Dotted(AudioFormats[i])
  {
  }

  lemma ImageFormatsDotted()
    ensures forall i :: 0 <= i < |ImageFormats| ==> Dotted(ImageFormats[i])
  {
  }

  /** No audio format is also an image format. */
  lemma FormatListsDisjoint()
    ensures forall i, j :: 0 <= i < |AudioFormats| && 0 <= j < |ImageFormats| ==> AudioFormats[i] != ImageFormats[j]
  {
  }

  /** Two single dotted extensions that a path both ends with are the same extension. */
  lemma SameDottedSuffix(path: string, a: string, b: string)
    requires Dotted(a) && Dotted(b)
    requires EndsWith(path, a) && EndsWith(path, b)
    ensures a == b
  {
    if |a| != |b| {
      assert false;
    }
    assert a == path[|path| - |a|..] == b;
  }

  /**
   * No path ends with both an audio and an image extension, so trying the audio list
   * first never decides the outcome: the order of the two tests is unobservable.
   */
  lemma AudioFirstUnobservable(path: string)
    ensures !(AnyEndsWith(path, AudioFormats) && AnyEndsWith(path, ImageFormats))
  {
    if AnyEndsWith(path, AudioFormats) && AnyEndsWith(path, ImageFormats) {
      var i :| 0 <= i < |AudioFormats| && EndsWith(path, AudioFormats[i]);
      var j :| 0 <= j < |ImageFormats| && EndsWith(path, ImageFormats[j]);
      FormatsAreDotted();
      FormatListsDisjoint();
      SameDottedSuffix(path, AudioFormats[i], ImageFormats[j]);
    }
  }

  /** The text from the last dot of `path` on ("" when it has no dot). */
  function DotSuffix(path: string): (r: string)
    ensures EndsWith(path, r)
  {
    var d := RFind(path, ExtSep);
    if d >= 0 then path[d..] else []
  }

  /** A single dotted extension that ends a path is exactly the text from its last dot. */
  lemma DottedSuffixIsDotSuffix(path: string, f: string)
    requires Dotted(f) && EndsWith(path, f)
    ensures f == DotSuffix(path)
  {
    var k := |path| - |f|;
    assert path[k] == f[0];
    forall j | k < j < |path| ensures path[j] != ExtSep {
      assert path[j] == f[1..][j - k - 1];
    }
    RFindIs(path, ExtSep, k);
  }

  /** The classification of an extension on its own. */
  function KindOfExt(e: string): Kind
  {
    if e in AudioFormats then Audio else if e in ImageFormats then Image else Unsupported
  }

  /** The dispatch looks only at the text from the last dot, matched exactly against the lists. */
  lemma KindByDotSuffix(path: string)
    ensures KindOf(path) == KindOfExt(DotSuffix(path))
  {
    var e := DotSuffix(path);
    FormatsAreDotted();
    if e in AudioFormats {
      var i :| 0 <= i < |AudioFormats| && AudioFormats[i] == e;
      assert EndsWith(path, AudioFormats[i]);
    } else if KindOf(path) == Audio {
      var i :| 0 <= i < |AudioFormats| && EndsWith(path, AudioFormats[i]);
      DottedSuffixIsDotSuffix(path, AudioFormats[i]);
      assert false;
    } else if e in ImageFormats {
      var j :| 0 <= j < |ImageFormats| && ImageFormats[j] == e;
      assert EndsWith(path, ImageFormats[j]);
    } else if KindOf(path) == Image {
      var j :| 0 <= j < |ImageFormats| && EndsWith(path, ImageFormats[j]);
      DottedSuffixIsDotSuffix(path, ImageFormats[j]);
      assert false;
    }
  }

  /** The upper-case spelling of an extension is in neither list. */
  lemma UpperCaseMp3NotListed()
    ensures ".MP3" !in AudioFormats && ".MP3" !in ImageFormats
  {
  }

  /** The suffix test is case-sensitive: an upper-case extension is not recognised. */
  lemma CaseSensitive()
    ensures KindOf("song.MP3") == Unsupported
  {
    var p := "song.MP3";
    RFindIs(p, ExtSep, 4);
    assert DotSuffix(p) == ".MP3";
    UpperCaseMp3NotListed();
    KindByDotSuffix(p);
  }
}
