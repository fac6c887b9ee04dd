/**
 * The `images` part of a heritage record: for each of the ten categories the
 * uploaded files, in order, as (content type, bytes) pairs; a category with no
 * upload holds the empty sequence.
 */
module Images {
  import opened Results
  import opened Uploads

  /** One stored image: the file's declared content type and its bytes. */
  datatype ImageBlob = ImageBlob(contentType: string, data: seq<byte>)

  type CategoryImages = map<Category, seq<ImageBlob>>

  /** The stored form of a category's files, one blob per file in the same order. */
  function ToBlobs(files: seq<FilePart>): (r: seq<ImageBlob>)
    ensures |r| == |files|
    ensures forall i :: 0 <= i < |files| ==>
      r[i].contentType == files[i].mimetype && r[i].data == files[i].bytes
  {
    seq(|files|, i requires 0 <= i < |files| => ImageBlob(files[i].mimetype, files[i].bytes))
  }

  /** The files of category `c`; none when the request was not multipart and intake produced nothing. */
  function Uploaded(files: Option<UploadedFiles>, c: Category): seq<FilePart> {
    if files.Some? then Lookup(files.value, c) else []
  }

  /**
   * The record's `images`: every one of the ten categories is present, holding
   * the blobs of that category's uploads (empty when nothing was uploaded).
   */
  function Assemble(files: Option<UploadedFiles>): (r: CategoryImages)
    ensures forall c: Category :: c in r && r[c] == ToBlobs(Uploaded(files, c))
  {
    CategoriesComplete();
    map c | c in Categories :: ToBlobs(Uploaded(files, c))
  }

  /** Number of files of `parts` under the categories `cs`. */
  function SumFiles(cs: seq<Category>, parts: seq<FilePart>): nat {
    if |cs| == 0 then 0 else |FilesIn(parts, cs[0])| + SumFiles(cs[1..], parts)
  }

  /** Number of images stored under the categories `cs`. */
  function SumImages(cs: seq<Category>, images: CategoryImages): nat {
    if |cs| == 0 then 0
    else (if cs[0] in images then |images[cs[0]]| else 0) + SumImages(cs[1..], images)
  }

  lemma {:induction false} SumFilesStep(cs: seq<Category>, parts: seq<FilePart>, c0: Category)
    requires |parts| > 0 && parts[|parts| - 1].fieldname == FieldName(c0)
    ensures SumFiles(cs, parts) == SumFiles(cs, parts[..|parts| - 1]) + multiset(cs)[c0]
    decreases |cs|
  {
    if |cs| > 0 {
      SumFilesStep(cs[1..], parts, c0);
      assert cs == [cs[0]] + cs[1..];
      assert multiset(cs) == multiset{cs[0]} + multiset(cs[1..]);
      var prefix, last := parts[..|parts| - 1], parts[|parts| - 1];
      if cs[0] == c0 {
        assert FilesIn(parts, cs[0]) == FilesIn(prefix, cs[0]) + [last];
      } else {
        assert FieldName(cs[0]) != last.fieldname;
        assert FilesIn(parts, cs[0]) == FilesIn(prefix, cs[0]);
      }
    }
  }

  lemma CategoriesOnce(c: Category)
    ensures multiset(Categories)[c] == 1
  {
  }

  /** Files whose fields are all among the ten categories are counted once each across the categories. */
  lemma {:induction false} EveryFileInOneCategory(parts: seq<FilePart>)
    requires forall i :: 0 <= i < |parts| ==> CategoryOf(parts[i].fieldname).Some?
    ensures SumFiles(Categories, parts) == |parts|
    decreases |parts|
  {
    if |parts| == 0 {
      assert forall k :: 0 <= k < |Categories| ==> FilesIn(parts, Categories[k]) == [];
      assert SumFiles(Categories, parts) == 0 by {
        SumFilesOfNone(Categories, parts);
      }
    } else {
      var prefix := parts[..|parts| - 1];
      forall i | 0 <= i < |prefix|
        ensures CategoryOf(prefix[i].fieldname).Some?
      {
        assert prefix[i] == parts[i];
      }
      EveryFileInOneCategory(prefix);
      var c0 := CategoryOf(parts[|parts| - 1].fieldname).value;
      SumFilesStep(Categories, parts, c0);
      CategoriesOnce(c0);
    }
  }

  lemma {:induction false} SumFilesOfNone(cs: seq<Category>, parts: seq<FilePart>)
    requires |parts| == 0
    ensures SumFiles(cs, parts) == 0
    decreases |cs|
  {
    if |cs| > 0 {
      SumFilesOfNone(cs[1..], parts);
    }
  }

  lemma {:induction false} SumImagesOfAssembled(cs: seq<Category>, u: UploadedFiles, parts: seq<FilePart>)
    requires GroupedFrom(u, parts)
    ensures SumImages(cs, Assemble(Some(u))) == SumFiles(cs, parts)
    decreases |cs|
  {
    if |cs| > 0 {
      SumImagesOfAssembled(cs[1..], u, parts);
    }
  }

  /**
   * No accepted file is dropped: the images assembled from an accepted upload
   * number exactly the files sent, and each category holds that category's
   * files, in order, with their content types and bytes.
   */
  lemma {:induction false} AssembledFromIntake(parts: seq<FilePart>)
    requires Intake(parts).Success?
    ensures SumImages(Categories, Assemble(Some(Intake(parts).value))) == |parts|
    ensures forall c: Category :: Assemble(Some(Intake(parts).value))[c] == ToBlobs(FilesIn(parts, c))
  {
    var u := Intake(parts).value;
    SumImagesOfAssembled(Categories, u, parts);
    EveryFileInOneCategory(parts);
  }
}
