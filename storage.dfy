/**
 * The Firebase Storage helpers of lib/storage.ts: the image-file validator,
 * the member-image path, and the configuration guard around uploads and
 * deletes. The bucket is a class holding a map from object path to file.
 */
module Storage {
  import opened Values

  /** The part of a browser `File` the helpers look at. */
  datatype File = File(fileType: string, size: nat)

  /** `maxSize`: 5 MiB. */
  const MaxSize: nat := 5 * 1024 * 1024

  const AllowedTypes: seq<string> := ["image/jpeg", "image/jpg", "image/png", "image/webp"]

  const FormatError := "画像形式はJPEG、PNG、WebPのみ対応しています"
  const SizeError := "ファイルサイズは5MB以下にしてください"

  /** `{ valid, error? }`. */
  datatype Validation = Validation(valid: bool, error: Option<string>)

  /** `validateImageFile`: the type is checked first, then the size (strictly greater is rejected). */
  function ValidateImageFile(file: File): (v: Validation)
    ensures v.valid <==> file.fileType in AllowedTypes && file.size <= MaxSize
    ensures v.valid <==> v.error.None?
    ensures v.error.Some? ==> v.error.value != ""
    ensures file.fileType !in AllowedTypes ==> v.error == Some(FormatError)
    ensures file.fileType in AllowedTypes && file.size > MaxSize ==> v.error == Some(SizeError)
  {
    if file.fileType !in AllowedTypes then Validation(false, Some(FormatError))
    else if file.size > MaxSize then Validation(false, Some(SizeError))
    else Validation(true, None)
  }

  /** A file of exactly 5 MiB passes; one byte more fails, with the size message. */
  lemma SizeBoundary(fileType: string)
    requires fileType in AllowedTypes
    ensures ValidateImageFile(File(fileType, 5242880)).valid
    ensures ValidateImageFile(File(fileType, 5242881)).error == Some(SizeError)
  {
  }

  /** Which of a member's two photos. */
  datatype ImageType = No1 | No2

  function ImageTypeName(t: ImageType): string
  {
    match t
    case No1 => "no1"
    case No2 => "no2"
  }

  /** The part of the path after the member's folder: `${imageType}_${Date.now()}.jpg`. */
  function FileName(imageType: ImageType, now: nat): string
  {
    ImageTypeName(imageType) + "_" + NatToString(now) + ".jpg"
  }

  /** `members/${memberId}/${imageType}_${Date.now()}.jpg`, whatever the file's type. */
  function MemberImagePath(memberId: string, imageType: ImageType, now: nat): (p: string)
    ensures StartsWith(p, "members/" + memberId + "/")
    ensures p[|p| - 4..] == ".jpg"
  {
    var folder := "members/" + memberId + "/";
    assert (folder + FileName(imageType, now))[..|folder|] == folder;
    folder + FileName(imageType, now)
  }

  lemma NatToStringInjective(a: nat, b: nat)
    requires NatToString(a) == NatToString(b)
    ensures a == b
  {
    NatToStringRoundTrip(a);
    NatToStringRoundTrip(b);
  }

  lemma FileNamesDistinct(t1: ImageType, n1: nat, t2: ImageType, n2: nat)
    requires (t1, n1) != (t2, n2)
    ensures FileName(t1, n1) != FileName(t2, n2)
  {
    var f1, f2 := FileName(t1, n1), FileName(t2, n2);
    if t1 != t2 {
      assert f1[2] != f2[2];
    } else if f1 == f2 {
      var d1, d2 := NatToString(n1), NatToString(n2);
      assert |d1| == |d2|;
      assert d1 == f1[4..4 + |d1|];
      assert d2 == f2[4..4 + |d2|];
      NatToStringInjective(n1, n2);
    }
  }

  /** Two uploads for one member at different times or for different photos get different paths. */
  lemma MemberImagePathsDistinct(memberId: string, t1: ImageType, n1: nat, t2: ImageType, n2: nat)
    requires (t1, n1) != (t2, n2)
    ensures MemberImagePath(memberId, t1, n1) != MemberImagePath(memberId, t2, n2)
  {
    var folder := "members/" + memberId + "/";
    var p1, p2 := MemberImagePath(memberId, t1, n1), MemberImagePath(memberId, t2, n2);
    FileNamesDistinct(t1, n1, t2, n2);
    assert p1[|folder|..] == FileName(t1, n1);
    assert p2[|folder|..] == FileName(t2, n2);
  }

  datatype StorageError = NotConfigured

  class Bucket {
    /** `useStorage()`: Firebase configured, in a browser. */
    const configured: bool
    var objects: map<string, File>

    constructor (configured: bool, objects: map<string, File>)
      ensures this.configured == configured && this.objects == objects
    {
      this.configured := configured;
      this.objects := objects;
    }

    /**
     * `uploadImage`: throws without uploading when storage is not configured;
     * otherwise stores the file under `path` and returns its address (the
     * download URL the service issues is represented by the path itself).
     */
    method UploadImage(file: File, path: string) returns (r: Result<string, StorageError>)
      modifies this
      ensures r == if configured then Ok(path) else Err(NotConfigured)
      ensures objects == if configured then old(objects)[path := file] else old(objects)
    {
      if !configured {
        return Err(NotConfigured);
      }
      objects := objects[path := file];
      r := Ok(path);
    }

    /** `uploadMemberImage`. */
    method UploadMemberImage(memberId: string, file: File, imageType: ImageType, now: nat) returns (r: Result<string, StorageError>)
      modifies this
      ensures r == if configured then Ok(MemberImagePath(memberId, imageType, now)) else Err(NotConfigured)
      ensures objects == if configured then old(objects)[MemberImagePath(memberId, imageType, now) := file] else old(objects)
    {
      r := UploadImage(file, MemberImagePath(memberId, imageType, now));
    }

    /** `deleteImage`: returns quietly when storage is not configured. */
    method DeleteImage(url: string)
      modifies this
      ensures objects == if configured then old(objects) - {url} else old(objects)
    {
      if !configured {
        return;
      }
      objects := objects - {url};
    }
  }
}
