/**
 * The form-submission route composed from its parts: upload intake, the
 * required-field check, normalisation into a record, and the save. The reply
 * is 201 with the stored record, 400 naming the missing fields, or 500; only
 * a 201 changes the store, and then by exactly one record.
 */
module SubmitForm {
  import opened Results
  import opened FormBody
  import opened RequiredFields
  import opened Uploads
  import opened Images
  import opened HeritageStore

  /**
   * A submission: its text fields, and its file parts when the request is
   * multipart (`None` when it is not; then the upload step produces no files).
   */
  datatype Request = Request(body: Body, files: Option<seq<FilePart>>)

  /**
   * What the environment supplies to a save: the identifier and creation time
   * given to the new document, and the error the save raises, if any, other
   * than the serial-number check and a repeated identifier. That covers an
   * unreachable store and the schema's casts: a coordinate that does not parse
   * as a number, or a numeric field whose text is not a number.
   */
  datatype SaveEnv = SaveEnv(id: nat, now: int, fault: Option<string>)

  datatype SaveError =
    | SerialNumberRequired      // the schema's required serial number is missing or empty
    | DuplicateId               // a document with this identifier is already stored
    | StoreFault(message: string) // any other store or schema error

  datatype Response =
    | Created(message: string, id: nat, data: HeritageRecord)
    | BadRequest(error: string, details: string)
    | SubmitFailed(error: string, cause: SaveError)
    | UploadRejected(reason: IntakeError)

  /** The HTTP status of a reply. Intake failures reach the framework's error handler, which answers 500. */
  function Status(r: Response): (code: int)
    ensures code == 201 <==> r.Created?
    ensures code == 400 <==> r.BadRequest?
    ensures code in {201, 400, 500}
  {
    match r
    case Created(_, _, _) => 201
    case BadRequest(_, _) => 400
    case _ => 500
  }

  /**
   * The schema's check on the serial number: a non-empty string. An array
   * fails the schema's string cast and an absent or empty value fails the
   * required check.
   */
  predicate SerialAccepted(v: BodyValue) {
    v.Str? && v.s != ""
  }

  predicate HasId(store: Store, id: nat) {
    exists i :: 0 <= i < |store| && store[i].id == id
  }

  /**
   * Upload intake for the request. A request that is not multipart (`None`)
   * passes with no files at all; a multipart one, even with no file parts,
   * goes through the intake limits.
   */
  function IntakeRequest(files: Option<seq<FilePart>>): (r: Result<Option<UploadedFiles>, IntakeError>)
    ensures r.Success? <==> files.None? || WithinLimits(files.value)
    ensures r.Success? ==> (r.value.Some? <==> files.Some?)
    ensures r.Success? && files.Some? ==> GroupedFrom(r.value.value, files.value)
  {
    if files.None? then Success(None)
    else
      match Intake(files.value)
      case Success(u) => Success(Some(u))
      case Failure(e) => Failure(e)
  }

  /** The document built from a request that passed the required-field check. */
  function BuildRecord(body: Body, uploads: Option<UploadedFiles>, env: SaveEnv): HeritageRecord {
    HeritageRecord(
      env.id,
      env.now,
      Get(body, "serial_number"),
      NormaliseFields(body),
      Coordinates(Get(body, "lat"), Get(body, "lng")),
      Assemble(uploads))
  }

  /**
   * Saving a document: schema validation first, then the write, which fails
   * when the store is unavailable or the identifier is taken. A successful
   * save appends the document and touches nothing else.
   */
  function Save(store: Store, rec: HeritageRecord, fault: Option<string>): (r: Result<Store, SaveError>)
    ensures r.Success? <==> SerialAccepted(rec.serialNumber) && fault.None? && !HasId(store, rec.id)
    ensures r.Success? ==> |r.value| == |store| + 1 && r.value[..|store|] == store && r.value[|store|] == rec
  {
    if !SerialAccepted(rec.serialNumber) then Failure(SerialNumberRequired)
    else if fault.Some? then Failure(StoreFault(fault.value))
    else if HasId(store, rec.id) then Failure(DuplicateId)
    else Success(store + [rec])
  }

  /**
   * The conditions under which a submission is stored: uploads within the
   * limits, all required fields present, an acceptable serial number, a
   * reachable store and an identifier not yet in use.
   */
  predicate Creates(store: Store, req: Request, env: SaveEnv) {
    && (req.files.None? || WithinLimits(req.files.value))
    && MissingFields(req.body) == []
    && SerialAccepted(Get(req.body, "serial_number"))
    && env.fault.None?
    && !HasId(store, env.id)
  }

  /** The submit route: the reply and the store after it. */
  function Submit(store: Store, req: Request, env: SaveEnv): (out: (Response, Store))
    ensures out.0.UploadRejected? <==> req.files.Some? && !WithinLimits(req.files.value)
    ensures out.0.BadRequest? <==>
      (req.files.None? || WithinLimits(req.files.value)) && MissingFields(req.body) != []
    ensures out.0.BadRequest? ==>
      out.0.error == MissingMessage(MissingFields(req.body)) && out.0.details == ExpectedDetails()
    ensures out.0.Created? <==> Creates(store, req, env)
    ensures !out.0.Created? ==> out.1 == store
    ensures out.0.Created? ==> out.0.message == "Form submitted successfully"
    ensures out.0.SubmitFailed? ==> out.0.error == "Failed to submit form"
    ensures out.0.Created? ==>
      && IntakeRequest(req.files).Success?
      && out.0.data == BuildRecord(req.body, IntakeRequest(req.files).value, env)
      && out.1 == store + [out.0.data]
      && out.0.id == env.id == out.0.data.id
      && out.0.data.createdAt == env.now
  {
    var intake := IntakeRequest(req.files);
    if intake.Failure? then (UploadRejected(intake.error), store)
    else
      var missing := MissingFields(req.body);
      if |missing| > 0 then (BadRequest(MissingMessage(missing), ExpectedDetails()), store)
      else
        var rec := BuildRecord(req.body, intake.value, env);
        match Save(store, rec, env.fault)
        case Failure(e) => (SubmitFailed("Failed to submit form", e), store)
        case Success(saved) => (Created("Form submitted successfully", rec.id, rec), saved)
  }

  /**
   * The stored record's contents: each descriptive field is the normalised body
   * value, the serial number and coordinates are the raw body values, and every
   * category holds exactly the blobs of that category's uploaded files.
   */
  lemma {:induction false} CreatedRecordContents(store: Store, req: Request, env: SaveEnv)
    requires Creates(store, req, env)
    ensures forall f :: f in TextFields ==>
      f in Submit(store, req, env).0.data.fields &&
      Submit(store, req, env).0.data.fields[f] == Normalise(Get(req.body, f))
    ensures Submit(store, req, env).0.data.serialNumber == Get(req.body, "serial_number")
    ensures Submit(store, req, env).0.data.coordinates == Coordinates(Get(req.body, "lat"), Get(req.body, "lng"))
    ensures forall c: Category ::
      c in Submit(store, req, env).0.data.images &&
      Submit(store, req, env).0.data.images[c] ==
        ToBlobs(if req.files.Some? then FilesIn(req.files.value, c) else [])
  {
    var out := Submit(store, req, env);
    assert out.0.Created?;
  }

  /** A 201 stores every uploaded file: the record's images number exactly the files sent. */
  lemma {:induction false} CreatedRecordKeepsEveryFile(store: Store, req: Request, env: SaveEnv)
    requires Creates(store, req, env)
    requires req.files.Some?
    ensures SumImages(Categories, Submit(store, req, env).0.data.images) == |req.files.value|
  {
    var parts := req.files.value;
    assert Intake(parts).Success?;
    AssembledFromIntake(parts);
    assert Submit(store, req, env).0.data.images == Assemble(Some(Intake(parts).value));
  }

  /** Identifiers stay distinct across submissions, whatever the environment supplies. */
  lemma {:induction false} SubmitKeepsIdsUnique(store: Store, req: Request, env: SaveEnv)
    requires UniqueIds(store)
    ensures UniqueIds(Submit(store, req, env).1)
  {
    var out := Submit(store, req, env);
    if out.0.Created? {
      forall i, j | 0 <= i < j < |out.1|
        ensures out.1[i].id != out.1[j].id
      {
        if j == |store| {
          assert out.1[i] == store[i];
        } else {
          assert out.1[i] == store[i] && out.1[j] == store[j];
        }
      }
    }
  }

  /** The health probe counts one more record after a 201 and the same number after anything else. */
  lemma {:induction false} ProbeCountAfterSubmit(store: Store, req: Request, env: SaveEnv, stamp: string)
    ensures var after := Probe(Submit(store, req, env).1, None, stamp).count;
      after == Probe(store, None, stamp).count + (if Submit(store, req, env).0.Created? then 1 else 0)
  {
  }

  /**
   * A record created later than every stored one heads the listing that
   * follows, with the contents it was stored with.
   */
  lemma {:induction false} NewSubmissionListedFirst(store: Store, req: Request, env: SaveEnv)
    requires Creates(store, req, env)
    requires forall i :: 0 <= i < |store| ==> store[i].createdAt < env.now
    ensures ListSubmissions(Submit(store, req, env).1, None).records[0] == Submit(store, req, env).0.data
  {
    var out := Submit(store, req, env);
    AppendedNewestListedFirst(store, out.0.data);
  }

  lemma HasIdAfterAppend(store: Store, rec: HeritageRecord, id: nat)
    ensures HasId(store + [rec], id) <==> HasId(store, id) || rec.id == id
  {
    var s := store + [rec];
    if HasId(s, id) {
      var i :| 0 <= i < |s| && s[i].id == id;
      if i < |store| {
        assert s[i] == store[i];
      }
    }
    if HasId(store, id) {
      var i :| 0 <= i < |store| && store[i].id == id;
      assert s[i] == store[i];
    }
    assert s[|store|] == rec;
  }

  /**
   * Two submissions that the store would each accept, under different
   * identifiers, are both accepted one after the other, and both records
   * appear in the listing that follows.
   */
  lemma {:induction false} TwoSubmissionsBothListed(store: Store, a: Request, ea: SaveEnv, b: Request, eb: SaveEnv)
    requires Creates(store, a, ea) && Creates(store, b, eb)
    requires ea.id != eb.id
    ensures Submit(Submit(store, a, ea).1, b, eb).0.Created?
    ensures var listed := ListSubmissions(Submit(Submit(store, a, ea).1, b, eb).1, None).records;
      Submit(store, a, ea).0.data in listed && Submit(Submit(store, a, ea).1, b, eb).0.data in listed
  {
    var first := Submit(store, a, ea);
    HasIdAfterAppend(store, first.0.data, eb.id);
    assert Creates(first.1, b, eb);
    var second := Submit(first.1, b, eb);
    assert second.1 == first.1 + [second.0.data];
    assert first.0.data in second.1 by {
      assert second.1[|store|] == first.0.data;
    }
    assert second.0.data in second.1 by {
      assert second.1[|first.1|] == second.0.data;
    }
    ListingKeepsEveryRecord(second.1);
  }

  /**
   * The six-field check does not cover the serial number: a body that passes
   * it but has no serial number is refused at save with a 500, and nothing is stored.
   */
  lemma {:induction false} MissingSerialNumberFails(store: Store, req: Request, env: SaveEnv)
    requires req.files.None? || WithinLimits(req.files.value)
    requires MissingFields(req.body) == []
    requires Get(req.body, "serial_number") == Absent
    ensures Status(Submit(store, req, env).0) == 500
    ensures Submit(store, req, env).0 == SubmitFailed("Failed to submit form", SerialNumberRequired)
    ensures Submit(store, req, env).1 == store
  {
  }

  /**
   * More than one hundred files are refused before anything else is looked at;
   * when the first hundred are acceptable the refusal is for the file count.
   */
  lemma {:induction false} TooManyFilesRefused(store: Store, req: Request, env: SaveEnv)
    requires req.files.Some? && |req.files.value| > MaxFiles
    ensures Submit(store, req, env).0.UploadRejected?
    ensures Submit(store, req, env).1 == store
    ensures WithinLimits(req.files.value[..MaxFiles]) ==>
      Submit(store, req, env).0.reason == FileCountExceeded
  {
    var parts := req.files.value;
    if WithinLimits(parts[..MaxFiles]) {
      TooManyFilesStop(parts);
    }
  }

  lemma {:induction false} TooManyFilesStop(parts: seq<FilePart>)
    requires |parts| > MaxFiles
    requires WithinLimits(parts[..MaxFiles])
    ensures Intake(parts) == Failure(FileCountExceeded)
    decreases |parts|
  {
    var prefix := parts[..|parts| - 1];
    if |prefix| > MaxFiles {
      assert prefix[..MaxFiles] == parts[..MaxFiles];
      TooManyFilesStop(prefix);
    } else {
      assert prefix == parts[..MaxFiles];
      assert Intake(prefix).Success?;
    }
  }

  /**
   * A `village_city` sent as an array passes the required-field check
   * whatever its first element, and the record then stores that first
   * element: an array whose first element is empty yields a 201 that stores
   * an empty village name.
   */
  lemma {:induction false} ArrayWithEmptyFirstStoredEmpty(store: Store, req: Request, env: SaveEnv)
    requires Creates(store, req, env)
    requires Get(req.body, "village_city").Arr?
    requires |Get(req.body, "village_city").items| > 0 && Get(req.body, "village_city").items[0] == ""
    ensures Submit(store, req, env).0.Created?
    ensures Submit(store, req, env).0.data.fields["village_city"] == Str("")
  {
    CreatedRecordContents(store, req, env);
    assert "village_city" in TextFields;
  }

  /** The body of `ArrayFirstEmptyBody`, sent with no files, is stored by an empty store. */
  lemma ArrayFirstEmptyBodyStored()
    ensures Creates([], Request(ArrayFirstEmptyBody(), None), SaveEnv(1, 0, None))
    ensures Get(ArrayFirstEmptyBody(), "village_city") == Arr(["", "x"])
  {
    ArrayFirstEmptyBodyPasses();
    assert !HasId([], 1);
  }

  lemma ArrayFirstEmptyBodyPasses()
    ensures MissingFields(ArrayFirstEmptyBody()) == []
    ensures SerialAccepted(Get(ArrayFirstEmptyBody(), "serial_number"))
  {
    var body := ArrayFirstEmptyBody();
    assert Get(body, "village_city") == Arr(["", "x"]);
    assert Get(body, "street_name") == Str("s");
    assert Get(body, "house_no") == Str("1");
    assert Get(body, "owner_data") == Str("o");
    assert Get(body, "lat") == Str("12.5");
    assert Get(body, "lng") == Str("77.1");
    MissingFieldsInRequiredOrder(body);
  }

  /** A body whose required fields are present, with `village_city` sent as `["", "x"]`. */
  function ArrayFirstEmptyBody(): Body {
    map[
      "village_city" := Arr(["", "x"]), "street_name" := Str("s"), "house_no" := Str("1"),
      "owner_data" := Str("o"), "lat" := Str("12.5"), "lng" := Str("77.1"),
      "serial_number" := Str("HB-1")]
  }
}
