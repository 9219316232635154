/**
 * `UploadController.uploadFile`: each uploaded image is saved under a fresh
 * uuid in a date folder and recorded as a profile of the member; the profile
 * counter `i` decides which profile becomes the current one.
 *
 * The uuid generator, the date folder, the member lookup and the file
 * transfer are parameters: `Env` fixes what each of them answers.
 */
module UploadController {
  import opened UploadNaming
  import Lists

  /** A `MultipartFile`, and whether `transferTo` succeeds for it or throws an `IOException`. */
  datatype UploadFile = UploadFile(contentType: string, originalFilename: string, transfers: bool)

  /** A saved `ProfileEntity`. */
  datatype Profile = Profile(fname: string, mid: string, currentYn: bool)

  /** The answer: FORBIDDEN without a body, or OK with the results. */
  datatype UploadResponse = Forbidden | Ok(results: seq<UploadResultDto>)

  /**
   * The surroundings of one call: the configured upload directory and
   * separator, the member id, whether the member is found, and the uuid and
   * date folder produced while handling the file at each position.
   */
  datatype Env = Env(uploadPath: string, sep: char, mid: string, memberExists: bool,
                     uuidOf: nat -> string, folderOf: nat -> string)

  datatype Outcome = Outcome(response: UploadResponse, profiles: seq<Profile>)

  /** `getContentType().startsWith("image")`. */
  predicate IsImage(f: UploadFile) {
    "image" <= f.contentType
  }

  function Transfers(f: UploadFile): bool {
    f.transfers
  }

  /** The position of the first file that is not an image, or the number of files. */
  function FirstNonImage(files: seq<UploadFile>): (m: nat)
    ensures m <= |files|
    ensures forall j :: 0 <= j < m ==> IsImage(files[j])
    ensures m < |files| ==> !IsImage(files[m])
  {
    if files == [] then 0
    else if !IsImage(files[0]) then 0
    else 1 + FirstNonImage(files[1..])
  }

  /** The positions among the first `m` files whose transfer succeeds. */
  function Saved(files: seq<UploadFile>, m: nat): (r: seq<nat>)
    requires m <= |files|
    ensures forall j :: 0 <= j < |r| ==> r[j] < m
  {
    Lists.KeptIndicesBounded(files[..m], Transfers);
    Lists.KeptIndices(files[..m], Transfers)
  }

  /** The result entry for the file at position `k`. */
  function ResultAt(env: Env, files: seq<UploadFile>, k: nat): UploadResultDto
    requires k < |files|
  {
    UploadResultDto(BaseName(files[k].originalFilename), env.uuidOf(k), env.folderOf(k))
  }

  /** Where the file at position `k` is saved. */
  function SaveNameAt(env: Env, files: seq<UploadFile>, k: nat): string
    requires k < |files|
  {
    SaveName(env.uploadPath, env.sep, env.folderOf(k), env.uuidOf(k), BaseName(files[k].originalFilename))
  }

  function Results(env: Env, files: seq<UploadFile>, saved: seq<nat>): (r: seq<UploadResultDto>)
    requires forall j :: 0 <= j < |saved| ==> saved[j] < |files|
    ensures |r| == |saved|
  {
    seq(|saved|, j requires 0 <= j < |saved| => ResultAt(env, files, saved[j]))
  }

  /** The `j`-th saved profile is current exactly when `j` equals the number of files less one. */
  function Profiles(env: Env, files: seq<UploadFile>, saved: seq<nat>): (r: seq<Profile>)
    requires forall j :: 0 <= j < |saved| ==> saved[j] < |files|
    ensures |r| == |saved|
  {
    seq(|saved|, j requires 0 <= j < |saved| => Profile(SaveNameAt(env, files, saved[j]), env.mid, j == |files| - 1))
  }

  /**
   * What one call answers and saves, without the loop: the files before the
   * first non-image are handled; a non-image makes the answer FORBIDDEN; a
   * missing member stops the loop at the first image, so only the first file
   * is ever looked at; the files whose transfer succeeds, in input order, give
   * the results and the profiles.
   */
  function Expected(env: Env, files: seq<UploadFile>): Outcome {
    var m := FirstNonImage(files);
    var saved := if env.memberExists then Saved(files, m) else [];
    var response := if m < |files| && (env.memberExists || m == 0) then Forbidden else Ok(Results(env, files, saved));
    Outcome(response, Profiles(env, files, saved))
  }

  /** `uploadFile(uploadFiles, mid)`; the profiles are those `profileRepo.save` has stored when the call ends. */
  method UploadFiles(env: Env, files: seq<UploadFile>) returns (response: UploadResponse, profiles: seq<Profile>)
    ensures Outcome(response, profiles) == Expected(env, files)
  {
    var results: seq<UploadResultDto> := [];
    profiles := [];
    var i := 0;
    var k := 0;
    while k < |files|
      invariant 0 <= k <= |files| && k <= FirstNonImage(files)
      invariant k == 0 || env.memberExists
      invariant results == Results(env, files, Saved(files, k))
      invariant profiles == Profiles(env, files, Saved(files, k))
      invariant i == |Saved(files, k)|
    {
      var file := files[k];
      if !IsImage(file) {
        return Forbidden, profiles;
      }
      var fileName := BaseName(file.originalFilename);
      var folderPath := env.folderOf(k);
      var uuid := env.uuidOf(k);
      var saveName := SaveName(env.uploadPath, env.sep, folderPath, uuid, fileName);
      if !env.memberExists {
        break;
      }
      assert files[..k + 1][..k] == files[..k];
      ghost var before := Saved(files, k);
      if file.transfers {
        results := results + [UploadResultDto(fileName, uuid, folderPath)];
        profiles := profiles + [Profile(saveName, env.mid, i == |files| - 1)];
        i := i + 1;
        assert Saved(files, k + 1) == before + [k];
      } else {
        assert Saved(files, k + 1) == before;
      }
      k := k + 1;
    }
    response := Ok(results);
  }

  /** Without a stored member nothing is saved, and the answer is FORBIDDEN only if the first file is not an image. */
  lemma MissingMemberSavesNothing(env: Env, files: seq<UploadFile>)
    requires !env.memberExists
    ensures Expected(env, files).profiles == []
    ensures Expected(env, files).response == Forbidden <==> |files| > 0 && !IsImage(files[0])
    ensures Expected(env, files).response != Forbidden ==> Expected(env, files).response == Ok([])
  {
  }

  /**
   * With a stored member, a non-image anywhere makes the answer FORBIDDEN, and
   * the profiles saved for the images before it stay saved.
   */
  lemma NonImageForbidsButKeepsEarlierProfiles(env: Env, files: seq<UploadFile>, k: nat)
    requires env.memberExists && k < |files| && !IsImage(files[k])
    requires forall j :: 0 <= j < k ==> IsImage(files[j])
    ensures Expected(env, files).response == Forbidden
    ensures Expected(env, files).profiles == Profiles(env, files, Saved(files, k))
  {
  }

  /**
   * With a stored member and only images, the answer is OK with one result per
   * file whose transfer succeeds, in input order, each beside a profile saved
   * at that file's save name for the member.
   */
  lemma OneResultPerTransferredFile(env: Env, files: seq<UploadFile>)
    requires env.memberExists && forall j :: 0 <= j < |files| ==> IsImage(files[j])
    ensures Expected(env, files).response.Ok?
    ensures var res, ps := Expected(env, files).response.results, Expected(env, files).profiles;
      var saved := Saved(files, |files|);
      && |res| == |ps| == |saved|
      && Lists.StrictlyIncreasing(saved)
      && (forall k :: 0 <= k < |files| ==> (k in saved <==> files[k].transfers))
      && (forall j :: 0 <= j < |res| ==>
            && res[j] == ResultAt(env, files, saved[j])
            && ps[j].fname == SaveName(env.uploadPath, env.sep, res[j].folderPath, res[j].uuid, res[j].fileName)
            && ps[j].mid == env.mid)
  {
    assert files[..|files|] == files;
    Lists.FilterByIndices(files, Transfers);
  }

  /** All of the first `m` files are saved exactly when each of their transfers works. */
  lemma SavedAll(files: seq<UploadFile>, m: nat)
    requires m <= |files|
    ensures |Saved(files, m)| <= m
    ensures |Saved(files, m)| == m <==> forall k :: 0 <= k < m ==> files[k].transfers
  {
    Lists.KeptIndicesFull(files[..m], Transfers);
    assert forall k :: 0 <= k < m ==> files[..m][k] == files[k];
  }

  /** At most one profile of a call is current, and only the last one saved can be. */
  lemma AtMostOneCurrent(env: Env, files: seq<UploadFile>)
    ensures var ps := Expected(env, files).profiles;
      forall j1, j2 :: 0 <= j1 < |ps| && 0 <= j2 < |ps| && ps[j1].currentYn && ps[j2].currentYn ==> j1 == j2
    ensures var ps := Expected(env, files).profiles;
      forall j :: 0 <= j < |ps| && ps[j].currentYn ==> j == |ps| - 1
  {
    var m := FirstNonImage(files);
    if env.memberExists {
      SavedAll(files, m);
    }
  }

  /**
   * A current profile is saved only when every file was an image, the member
   * was found and every transfer worked: `i` reaches the last position only
   * if no file was skipped.
   */
  lemma CurrentOnlyWhenEveryFileSaved(env: Env, files: seq<UploadFile>, j: nat)
    requires j < |Expected(env, files).profiles| && Expected(env, files).profiles[j].currentYn
    ensures env.memberExists
    ensures forall k :: 0 <= k < |files| ==> IsImage(files[k]) && files[k].transfers
  {
    var m := FirstNonImage(files);
    SavedAll(files, m);
  }

  /** When every file is an image, the member is found and every transfer works, the last profile is current. */
  lemma EveryFileSavedMakesLastCurrent(env: Env, files: seq<UploadFile>)
    requires |files| > 0 && env.memberExists
    requires forall k :: 0 <= k < |files| ==> IsImage(files[k]) && files[k].transfers
    ensures var ps := Expected(env, files).profiles;
      |ps| == |files| && ps[|files| - 1].currentYn
  {
    var m := FirstNonImage(files);
    assert m == |files|;
    SavedAll(files, m);
  }
}
