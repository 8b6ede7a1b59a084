/**
 * Importing media (components/FileImporter.tsx): picked visual files become
 * image or video items by their MIME type; a picked audio file becomes the
 * single audio item. The ids (`crypto.randomUUID()`) and object URLs
 * (`URL.createObjectURL(file)`) the platform hands out are inputs here.
 */
module FileImporter {
  import opened Types

  /** JavaScript's `s.startsWith(prefix)`. */
  predicate StartsWith(s: string, prefix: string) {
    |prefix| <= |s| && s[..|prefix|] == prefix
  }

  /** The item the importer builds for one picked visual file. */
  function Imported(file: File, id: string, src: string): MediaFile {
    var kind := if StartsWith(file.mimeType, "image") then Image else Video;
    MediaFile(id, file, src, kind, Option.None, Option.None, Option.None)
  }

  /**
   * The loop of `handleVisualFileChange`: one new item per picked file, in the
   * order picked, with the i-th platform id and object URL.
   */
  method NewMediaFiles(files: seq<File>, ids: seq<string>, srcs: seq<string>)
    returns (newMediaFiles: seq<MediaFile>)
    requires |ids| == |files| && |srcs| == |files|
    ensures |newMediaFiles| == |files|
    ensures forall i :: 0 <= i < |files| ==>
      && newMediaFiles[i].id == ids[i]
      && newMediaFiles[i].file == files[i]
      && newMediaFiles[i].src == srcs[i]
      && (newMediaFiles[i].kind == Image <==> StartsWith(files[i].mimeType, "image"))
      && (newMediaFiles[i].kind == Video <==> !StartsWith(files[i].mimeType, "image"))
      && newMediaFiles[i].isDramatic.None?
      && newMediaFiles[i].overlayText.None?
      && newMediaFiles[i].overlayOptions.None?
    ensures forall i :: 0 <= i < |files| ==> newMediaFiles[i] == Imported(files[i], ids[i], srcs[i])
  {
    newMediaFiles := [];
    var i := 0;
    while i < |files|
      invariant 0 <= i <= |files|
      invariant |newMediaFiles| == i
      invariant forall j :: 0 <= j < i ==> newMediaFiles[j] == Imported(files[j], ids[j], srcs[j])
    {
      var file := files[i];
      var kind := if StartsWith(file.mimeType, "image") then Image else Video;
      newMediaFiles := newMediaFiles + [MediaFile(ids[i], file, srcs[i], kind, Option.None, Option.None, Option.None)];
      i := i + 1;
    }
  }

  /** `event.target.files?.[0]`: the first picked file, if there is a list and it is not empty. */
  function FirstFile(files: Option<seq<File>>): (f: Option<File>)
    ensures f.Some? <==> files.Some? && files.value != []
    ensures f.Some? ==> f.value == files.value[0]
  {
    if files.Some? && files.value != [] then Option.Some(files.value[0]) else Option.None
  }

  /**
   * `handleAudioFileChange`: with a picked file the audio item is replaced
   * wholesale by a fresh `audio` item for it; without one it stays as it was.
   */
  function AudioAfterImport(current: Option<MediaFile>, files: Option<seq<File>>, id: string, src: string)
    : (r: Option<MediaFile>)
    ensures FirstFile(files).None? ==> r == current
    ensures FirstFile(files).Some? ==>
      && r.Some?
      && r.value.kind == Audio
      && r.value.file == files.value[0]
      && r.value.id == id
      && r.value.src == src
      && r.value.isDramatic.None?
      && r.value.overlayText.None?
      && r.value.overlayOptions.None?
  {
    match FirstFile(files)
    case None => current
    case Some(file) => Option.Some(MediaFile(id, file, src, Audio, Option.None, Option.None, Option.None))
  }
}
