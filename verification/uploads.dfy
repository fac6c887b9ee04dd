/**
 * Upload intake: the in-memory multipart file handling configured for the
 * submit route. Files arrive as an ordered stream of parts, each under a form
 * field name. Ten field names are accepted, at most ten files each, at most
 * one hundred files in all, and at most 10 MiB per file; every content type
 * is let through. Accepted files are grouped by field, in arrival order.
 */
module Uploads {
  import opened Results

  newtype byte = x: int | 0 <= x < 256

  /** The ten image categories, one per accepted file field. */
  datatype Category =
    | Roof | Ceiling | Wall | Jallis | Openings | Floor
    | BuildingFacades | Others | Setting | DecorativeFeature

  /** The categories in the order the upload configuration lists them. */
  const Categories: seq<Category> := [
    Roof, Ceiling, Wall, Jallis, Openings, Floor,
    BuildingFacades, Others, Setting, DecorativeFeature
  ]

  /** The form field name under which files of a category are sent. */
  function FieldName(c: Category): string {
    match c
    case Roof => "roof_image"
    case Ceiling => "ceiling_image"
    case Wall => "wall_image"
    case Jallis => "jallis_image"
    case Openings => "openings_image"
    case Floor => "floor_image"
    case BuildingFacades => "building_facades_image"
    case Others => "others_image"
    case Setting => "setting_image"
    case DecorativeFeature => "decorative_feature_image"
  }

  /** The category a form field name belongs to, if it is one of the ten. */
  function CategoryOf(name: string): (r: Option<Category>)
    ensures r.Some? ==> FieldName(r.value) == name
    ensures r.None? ==> forall c: Category :: FieldName(c) != name
  {
    if name == "roof_image" then Some(Roof)
    else if name == "ceiling_image" then Some(Ceiling)
    else if name == "wall_image" then Some(Wall)
    else if name == "jallis_image" then Some(Jallis)
    else if name == "openings_image" then Some(Openings)
    else if name == "floor_image" then Some(Floor)
    else if name == "building_facades_image" then Some(BuildingFacades)
    else if name == "others_image" then Some(Others)
    else if name == "setting_image" then Some(Setting)
    else if name == "decorative_feature_image" then Some(DecorativeFeature)
    else None
  }

  /** Each category's field name leads back to that category. */
  lemma CategoryOfFieldName(c: Category)
    ensures CategoryOf(FieldName(c)) == Some(c)
  {
  }

  /** The category list names every category exactly once. */
  lemma CategoriesComplete()
    ensures |Categories| == 10
    ensures forall c: Category :: c in Categories
    ensures forall i, j :: 0 <= i < j < |Categories| ==> Categories[i] != Categories[j]
  {
    forall c: Category
      ensures c in Categories
    {
      match c
      case Roof => assert Categories[0] == c;
      case Ceiling => assert Categories[1] == c;
      case Wall => assert Categories[2] == c;
      case Jallis => assert Categories[3] == c;
      case Openings => assert Categories[4] == c;
      case Floor => assert Categories[5] == c;
      case BuildingFacades => assert Categories[6] == c;
      case Others => assert Categories[7] == c;
      case Setting => assert Categories[8] == c;
      case DecorativeFeature => assert Categories[9] == c;
    }
  }

  const MaxFileSize: nat := 10 * 1024 * 1024
  const MaxFiles: nat := 100
  const MaxPerCategory: nat := 10

  /** One uploaded file: its form field, declared content type and bytes. */
  datatype FilePart = FilePart(fieldname: string, mimetype: string, bytes: seq<byte>)

  /** The accepted files by category; a category only appears once a file for it has arrived. */
  type UploadedFiles = map<Category, seq<FilePart>>

  /** Why intake refused a request. */
  datatype IntakeError =
    | FileCountExceeded               // more than MaxFiles files in the request
    | UnexpectedField(field: string)  // an unknown field, or a category past its count
    | FileTooLarge(field: string)     // a file over MaxFileSize bytes

  /** The files sent under category `c`, in arrival order. */
  function FilesIn(parts: seq<FilePart>, c: Category): seq<FilePart>
    decreases |parts|
  {
    if |parts| == 0 then []
    else
      var last := parts[|parts| - 1];
      FilesIn(parts[..|parts| - 1], c) + (if last.fieldname == FieldName(c) then [last] else [])
  }

  function Lookup(u: UploadedFiles, c: Category): seq<FilePart> {
    if c in u then u[c] else []
  }

  /** The declarative intake limits: what a request must satisfy to be accepted. */
  predicate WithinLimits(parts: seq<FilePart>) {
    && |parts| <= MaxFiles
    && (forall i :: 0 <= i < |parts| ==>
          CategoryOf(parts[i].fieldname).Some? && |parts[i].bytes| <= MaxFileSize)
    && (forall c: Category :: |FilesIn(parts, c)| <= MaxPerCategory)
  }

  /** `u` holds exactly the files of `parts`, grouped by category in arrival order. */
  predicate GroupedFrom(u: UploadedFiles, parts: seq<FilePart>) {
    forall c: Category ::
      && (c in u <==> FilesIn(parts, c) != [])
      && Lookup(u, c) == FilesIn(parts, c)
  }

  /**
   * Takes the next part, `received` files having been accepted before it: the
   * file-count limit is checked first, then the field (unknown, or its
   * category already full), then the file size.
   */
  function Accept(u: UploadedFiles, received: nat, p: FilePart): Result<UploadedFiles, IntakeError> {
    if received >= MaxFiles then Failure(FileCountExceeded)
    else match CategoryOf(p.fieldname)
      case None => Failure(UnexpectedField(p.fieldname))
      case Some(c) =>
        if |Lookup(u, c)| >= MaxPerCategory then Failure(UnexpectedField(p.fieldname))
        else if |p.bytes| > MaxFileSize then Failure(FileTooLarge(p.fieldname))
        else Success(u[c := Lookup(u, c) + [p]])
  }

  /** The limits of a request, stated as those of all but its last part plus the last part's own checks. */
  lemma WithinLimitsStep(parts: seq<FilePart>)
    requires |parts| > 0
    ensures var prefix, last := parts[..|parts| - 1], parts[|parts| - 1];
      WithinLimits(parts) <==>
        && WithinLimits(prefix)
        && |prefix| < MaxFiles
        && CategoryOf(last.fieldname).Some?
        && |FilesIn(prefix, CategoryOf(last.fieldname).value)| < MaxPerCategory
        && |last.bytes| <= MaxFileSize
  {
    var prefix, last := parts[..|parts| - 1], parts[|parts| - 1];
    if WithinLimits(parts) {
      forall c: Category
        ensures |FilesIn(prefix, c)| <= MaxPerCategory
      {
        assert |FilesIn(prefix, c)| <= |FilesIn(parts, c)|;
      }
      assert CategoryOf(last.fieldname).Some?;
      var c := CategoryOf(last.fieldname).value;
      assert FilesIn(parts, c) == FilesIn(prefix, c) + [last];
      forall i | 0 <= i < |prefix|
        ensures CategoryOf(prefix[i].fieldname).Some? && |prefix[i].bytes| <= MaxFileSize
      {
        assert prefix[i] == parts[i];
      }
    }
    if && WithinLimits(prefix) && |prefix| < MaxFiles && CategoryOf(last.fieldname).Some?
       && |FilesIn(prefix, CategoryOf(last.fieldname).value)| < MaxPerCategory
       && |last.bytes| <= MaxFileSize
    {
      var c0 := CategoryOf(last.fieldname).value;
      forall c: Category
        ensures |FilesIn(parts, c)| <= MaxPerCategory
      {
        if c == c0 {
          assert FilesIn(parts, c) == FilesIn(prefix, c) + [last];
        } else {
          assert FieldName(c) != last.fieldname;
          assert FilesIn(parts, c) == FilesIn(prefix, c);
        }
      }
      forall i | 0 <= i < |parts|
        ensures CategoryOf(parts[i].fieldname).Some? && |parts[i].bytes| <= MaxFileSize
      {
        if i < |prefix| {
          assert parts[i] == prefix[i];
        }
      }
    }
  }

  /** Accepting the last part extends the grouping of the earlier ones by that part. */
  lemma AcceptExtendsGrouping(u: UploadedFiles, parts: seq<FilePart>)
    requires |parts| > 0
    requires GroupedFrom(u, parts[..|parts| - 1])
    requires Accept(u, |parts| - 1, parts[|parts| - 1]).Success?
    ensures GroupedFrom(Accept(u, |parts| - 1, parts[|parts| - 1]).value, parts)
  {
    var prefix, last := parts[..|parts| - 1], parts[|parts| - 1];
    var c0 := CategoryOf(last.fieldname).value;
    var u' := Accept(u, |parts| - 1, last).value;
    assert u' == u[c0 := Lookup(u, c0) + [last]];
    forall c: Category
      ensures (c in u' <==> FilesIn(parts, c) != []) && Lookup(u', c) == FilesIn(parts, c)
    {
      if c == c0 {
        assert FilesIn(parts, c) == FilesIn(prefix, c) + [last];
      } else {
        assert FieldName(c) != last.fieldname;
        assert FilesIn(parts, c) == FilesIn(prefix, c);
      }
    }
  }

  /**
   * Intake of a request's file parts in arrival order, stopping at the first
   * part that breaks a limit. It accepts exactly the requests within the
   * limits, and then yields every file, grouped by category in order.
   */
  function Intake(parts: seq<FilePart>): (r: Result<UploadedFiles, IntakeError>)
    ensures r.Success? <==> WithinLimits(parts)
    ensures r.Success? ==> GroupedFrom(r.value, parts)
    decreases |parts|
  {
    if |parts| == 0 then Success(map[])
    else
      var prior := Intake(parts[..|parts| - 1]);
      WithinLimitsStep(parts);
      if prior.Failure? then prior
      else
        var r := Accept(prior.value, |parts| - 1, parts[|parts| - 1]);
        if r.Success? then AcceptExtendsGrouping(prior.value, parts); r
        else r
  }
}
