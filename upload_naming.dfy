/**
 * File naming of the upload feature: the browser's file name is cut to its
 * base name, stored as `uuid_name` beside an `s_uuid_name` thumbnail,
 * served back by `getFile` (which strips the `s_` again for size 1),
 * removed with its thumbnail by `removeFile`, and published as the
 * `imageURL` / `thumbnailURL` of `UploadResultDTO`.
 *
 * Paths are plain strings; `java.io.File` is modelled only through its
 * `getName`, `getParent` and `new File(parent, child)`.
 */
module UploadNaming {
  import opened Wrappers

  /** `String.lastIndexOf(c)`: the last position of `c`, or -1. */
  function LastIndexOf(s: string, c: char): (r: int)
    ensures -1 <= r < |s|
    ensures r == -1 <==> c !in s
    ensures r >= 0 ==> s[r] == c
    ensures forall j :: r < j < |s| ==> s[j] != c
  {
    if |s| == 0 then -1
    else if s[|s| - 1] == c then |s| - 1
    else
      var init := s[..|s| - 1];
      assert forall j :: 0 <= j < |init| ==> init[j] == s[j];
      LastIndexOf(init, c)
  }

  /** The position of a separator that nothing after it repeats. */
  lemma {:induction false} LastIndexOfJoin(a: string, c: char, b: string)
    requires c !in b
    ensures LastIndexOf(a + [c] + b, c) == |a|
  {
    var s := a + [c] + b;
    var r := LastIndexOf(s, c);
    assert s[|a|] == c;
    assert s[|a| + 1..] == b;
  }

  /** The file name without any Windows directory part: what follows the last backslash. */
  function BaseName(originalName: string): (r: string)
    ensures '\\' !in r
    ensures '\\' !in originalName ==> r == originalName
    ensures |r| <= |originalName| && originalName[|originalName| - |r|..] == r
    ensures |r| < |originalName| ==> originalName[|originalName| - |r| - 1] == '\\'
  {
    originalName[LastIndexOf(originalName, '\\') + 1..]
  }

  /** A name with a directory part loses exactly that part. */
  lemma BaseNameOfPath(dir: string, name: string)
    requires '\\' !in name
    ensures BaseName(dir + "\\" + name) == name
  {
    LastIndexOfJoin(dir, '\\', name);
    assert (dir + "\\" + name)[|dir| + 1..] == name;
  }

  /** Cutting a name that is already a base name changes nothing. */
  lemma BaseNameIdempotent(originalName: string)
    ensures BaseName(BaseName(originalName)) == BaseName(originalName)
  {
  }

  /** `uploadPath/folderPath/uuid_fileName`, where the original is saved. */
  function SaveName(uploadPath: string, sep: char, folderPath: string, uuid: string, fileName: string): string {
    uploadPath + [sep] + folderPath + [sep] + uuid + "_" + fileName
  }

  /** `uploadPath/folderPath/s_uuid_fileName`, where its thumbnail goes. */
  function ThumbnailSaveName(uploadPath: string, sep: char, folderPath: string, uuid: string, fileName: string): string {
    uploadPath + [sep] + folderPath + [sep] + "s_" + uuid + "_" + fileName
  }

  /** The thumbnail sits in the same folder as the original, under the original's name with `s_` before it. */
  lemma ThumbnailBesideOriginal(uploadPath: string, sep: char, folderPath: string, uuid: string, fileName: string)
    ensures var dir := uploadPath + [sep] + folderPath + [sep];
      && SaveName(uploadPath, sep, folderPath, uuid, fileName) == dir + uuid + "_" + fileName
      && ThumbnailSaveName(uploadPath, sep, folderPath, uuid, fileName) == dir + "s_" + uuid + "_" + fileName
  {
  }

  /** `File.getName()`: what follows the last separator. */
  function GetName(path: string, sep: char): (r: string)
    ensures sep !in r
    ensures |r| <= |path| && path[|path| - |r|..] == r
  {
    path[LastIndexOf(path, sep) + 1..]
  }

  /** `File.getParent()`: what precedes the last separator, or null without one. */
  function GetParent(path: string, sep: char): (r: Option<string>)
    ensures r.None? <==> sep !in path
    ensures r.Some? ==> path == r.value + [sep] + GetName(path, sep)
  {
    var i := LastIndexOf(path, sep);
    if i < 0 then None
    else
      assert path == path[..i] + [sep] + path[i + 1..];
      Some(path[..i])
  }

  /** `new File(parent, child)`: the child alone when the parent is null. */
  function Child(parent: Option<string>, sep: char, child: string): string {
    match parent
    case None => child
    case Some(p) => p + [sep] + child
  }

  /** Splitting a path at its last separator and joining it again gives the path back. */
  lemma ParentAndName(path: string, sep: char)
    ensures Child(GetParent(path, sep), sep, GetName(path, sep)) == path
  {
  }

  lemma SplitAtLast(dir: string, sep: char, name: string)
    requires sep !in name
    ensures GetName(dir + [sep] + name, sep) == name
    ensures GetParent(dir + [sep] + name, sep) == Some(dir)
  {
    LastIndexOfJoin(dir, sep, name);
    var p := dir + [sep] + name;
    assert p[|dir| + 1..] == name;
    assert p[..|dir|] == dir;
  }

  /** `substring(2)`: the first two characters dropped, an index error on a shorter name. */
  function Strip(name: string): (r: Option<string>)
    ensures r.None? <==> |name| < 2
    ensures r.Some? ==> name == name[..2] + r.value
  {
    if |name| < 2 then None else Some(name[2..])
  }

  /** Stripping undoes the thumbnail prefix. */
  lemma StripInvertsPrefix(name: string)
    ensures Strip("s_" + name) == Some(name)
  {
    assert ("s_" + name)[2..] == name;
  }

  /** Why `getFile` answers 500: an undecodable name, a name too short to strip, or no such file. */
  datatype DisplayError = BadEncoding | NameTooShort | NoSuchFile

  /**
   * The file `getFile(fileName, size)` sends: the decoded name under the upload
   * directory, with the name's first two characters dropped when size is "1".
   */
  function DisplayFile(uploadPath: string, sep: char, fileName: string, size: Option<string>,
                       decode: string -> Option<string>, files: set<string>): (r: Result<string, DisplayError>)
    ensures r.Failure? && r.error == BadEncoding <==> decode(fileName).None?
    ensures r.Success? ==> r.value in files
    ensures decode(fileName).Some? && size != Some("1") ==>
      var path := uploadPath + [sep] + decode(fileName).value;
      r == if path in files then Success(path) else Failure(NoSuchFile)
  {
    match decode(fileName)
    case None => Failure(BadEncoding)
    case Some(src) =>
      var path := uploadPath + [sep] + src;
      if size == Some("1") then
        match Strip(GetName(path, sep))
        case None => Failure(NameTooShort)
        case Some(original) =>
          var target := Child(GetParent(path, sep), sep, original);
          if target in files then Success(target) else Failure(NoSuchFile)
      else if path in files then Success(path) else Failure(NoSuchFile)
  }

  /** What `removeFile` leaves behind and answers (the result of deleting the thumbnail). */
  datatype Removal = Removal(files: set<string>, deleted: bool)

  /** The sibling `s_` file of a path, as `removeFile` names it. */
  function ThumbnailOf(path: string, sep: char): string {
    Child(GetParent(path, sep), sep, "s_" + GetName(path, sep))
  }

  /**
   * `removeFile(fileName)`: the named file and its `s_` sibling are deleted;
   * the answer says only whether the sibling was there.
   */
  function RemoveFile(uploadPath: string, sep: char, fileName: string,
                      decode: string -> Option<string>, files: set<string>): (r: Option<Removal>)
    ensures r.None? <==> decode(fileName).None?
    ensures r.Some? ==>
      var full := uploadPath + [sep] + decode(fileName).value;
      var thumb := ThumbnailOf(full, sep);
      && r.value.files == files - {full, thumb}
      && r.value.deleted == (thumb in files)
  {
    match decode(fileName)
    case None => None
    case Some(src) =>
      var full := uploadPath + [sep] + src;
      var thumb := ThumbnailOf(full, sep);
      assert full == GetParent(full, sep).value + [sep] + GetName(full, sep);
      assert |thumb| == |full| + 2;
      var afterFile := files - {full};
      Some(Removal(afterFile - {thumb}, thumb in afterFile))
  }

  /** `UploadResultDTO`: one uploaded image as the client sees it. */
  datatype UploadResultDto = UploadResultDto(fileName: string, uuid: string, folderPath: string)

  /** The text `getImageURL` encodes: `folderPath/uuid_fileName`. */
  function ImagePath(d: UploadResultDto): string {
    d.folderPath + "/" + d.uuid + "_" + d.fileName
  }

  /** The text `getThumbnailURL` encodes: `folderPath/s_uuid_fileName`. */
  function ThumbnailPath(d: UploadResultDto): string {
    d.folderPath + "/s_" + d.uuid + "_" + d.fileName
  }

  /** An encoder's answer, or "" when encoding fails. */
  function EncodedOrEmpty(text: string, encode: string -> Option<string>): (r: string)
    ensures encode(text).None? ==> r == ""
    ensures encode(text).Some? ==> r == encode(text).value
  {
    match encode(text)
    case None => ""
    case Some(e) => e
  }

  function ImageUrl(d: UploadResultDto, encode: string -> Option<string>): string {
    EncodedOrEmpty(ImagePath(d), encode)
  }

  function ThumbnailUrl(d: UploadResultDto, encode: string -> Option<string>): string {
    EncodedOrEmpty(ThumbnailPath(d), encode)
  }

  /** Before encoding, the thumbnail path is the image path with `s_` put right after the folder's `/`. */
  lemma ThumbnailPathInsertsPrefix(d: UploadResultDto)
    ensures var cut := |d.folderPath| + 1;
      && ImagePath(d)[..cut] == d.folderPath + "/"
      && ThumbnailPath(d) == ImagePath(d)[..cut] + "s_" + ImagePath(d)[cut..]
  {
    var cut := |d.folderPath| + 1;
    assert ImagePath(d)[..cut] == d.folderPath + "/";
    assert ImagePath(d)[cut..] == d.uuid + "_" + d.fileName;
  }

  /**
   * The image URL of an upload, once decoded, makes `getFile` send the saved
   * original. This needs '/' as the separator.
   */
  lemma ImageUrlDisplaysOriginal(uploadPath: string, d: UploadResultDto, url: string,
                                 decode: string -> Option<string>, files: set<string>)
    requires decode(url) == Some(ImagePath(d))
    ensures var saved := SaveName(uploadPath, '/', d.folderPath, d.uuid, d.fileName);
      DisplayFile(uploadPath, '/', url, None, decode, files) == if saved in files then Success(saved) else Failure(NoSuchFile)
  {
    assert uploadPath + "/" + ImagePath(d) == SaveName(uploadPath, '/', d.folderPath, d.uuid, d.fileName);
  }

  /** With size "1", a decoded name of the form `dir/s_name` makes `getFile` send `dir/name`. */
  lemma DisplayStripsPrefix(uploadPath: string, sep: char, url: string, decode: string -> Option<string>,
                            files: set<string>, dir: string, name: string)
    requires sep !in "s_" + name
    requires decode(url).Some? && uploadPath + [sep] + decode(url).value == dir + [sep] + ("s_" + name)
    ensures DisplayFile(uploadPath, sep, url, Some("1"), decode, files) ==
      if dir + [sep] + name in files then Success(dir + [sep] + name) else Failure(NoSuchFile)
  {
    SplitAtLast(dir, sep, "s_" + name);
    StripInvertsPrefix(name);
  }

  /**
   * The thumbnail URL with size "1" makes `getFile` send the saved original
   * too: the two characters it strips are the `s_` the thumbnail name added.
   * This needs '/' as the separator and none inside the uuid or the file name.
   */
  lemma ThumbnailUrlDisplaysOriginal(uploadPath: string, d: UploadResultDto, url: string,
                                     decode: string -> Option<string>, files: set<string>)
    requires '/' !in d.uuid && '/' !in d.fileName
    requires decode(url) == Some(ThumbnailPath(d))
    ensures var saved := SaveName(uploadPath, '/', d.folderPath, d.uuid, d.fileName);
      DisplayFile(uploadPath, '/', url, Some("1"), decode, files) == if saved in files then Success(saved) else Failure(NoSuchFile)
  {
    var dir := uploadPath + "/" + d.folderPath;
    var name := d.uuid + "_" + d.fileName;
    assert uploadPath + "/" + ThumbnailPath(d) == dir + "/" + ("s_" + name);
    assert '/' !in "s_" + name;
    assert dir + "/" + name == SaveName(uploadPath, '/', d.folderPath, d.uuid, d.fileName);
    DisplayStripsPrefix(uploadPath, '/', url, decode, files, dir, name);
  }

  /** Removing by the image URL deletes the saved original and its thumbnail and nothing else. */
  lemma RemoveByImageUrl(uploadPath: string, d: UploadResultDto, url: string,
                         decode: string -> Option<string>, files: set<string>)
    requires '/' !in d.uuid && '/' !in d.fileName
    requires decode(url) == Some(ImagePath(d))
    ensures var saved := SaveName(uploadPath, '/', d.folderPath, d.uuid, d.fileName);
      var thumb := ThumbnailSaveName(uploadPath, '/', d.folderPath, d.uuid, d.fileName);
      RemoveFile(uploadPath, '/', url, decode, files) == Some(Removal(files - {saved, thumb}, thumb in files))
  {
    var dir := uploadPath + "/" + d.folderPath;
    var name := d.uuid + "_" + d.fileName;
    assert '/' !in name;
    var saved := SaveName(uploadPath, '/', d.folderPath, d.uuid, d.fileName);
    assert uploadPath + "/" + ImagePath(d) == dir + "/" + name == saved;
    SplitAtLast(dir, '/', name);
    assert ThumbnailOf(saved, '/') == ThumbnailSaveName(uploadPath, '/', d.folderPath, d.uuid, d.fileName);
  }
}
