/**
 * The text part of a multipart form body and the handler's normalisation of it.
 *
 * A multipart parser turns a field that occurs once into a string and a field
 * that occurs several times into an array of strings, so every body value is
 * absent, a single string or an array of strings. The handler collapses each
 * descriptive field to one value: an array gives its first element, anything
 * else passes through unchanged.
 */
module FormBody {

  datatype BodyValue = Absent | Str(s: string) | Arr(items: seq<string>)

  /** A normalised value: never an array. */
  type Scalar = v: BodyValue | !v.Arr? witness Absent

  /** The parsed text fields of a request, by field name. */
  type Body = map<string, BodyValue>

  /** The body's value for `name`; a name the body does not carry reads as absent. */
  function Get(body: Body, name: string): BodyValue {
    if name in body then body[name] else Absent
  }

  /**
   * Whether the handler treats a value as present: an absent value and the
   * empty string count as missing; every array counts as present, even an
   * empty one or one holding only the empty string.
   */
  predicate Truthy(v: BodyValue) {
    match v
    case Absent => false
    case Str(s) => s != ""
    case Arr(_) => true
  }

  /**
   * Collapses a value to a single one: an array gives its first element (an
   * empty array gives an absent value); anything else is kept unchanged.
   */
  function Normalise(v: BodyValue): (r: Scalar)
    ensures !v.Arr? ==> r == v
    ensures v.Arr? ==> (r.Str? <==> |v.items| > 0)
    ensures v.Arr? && |v.items| > 0 ==> r == Str(v.items[0])
  {
    match v
    case Arr(items) => if |items| > 0 then Str(items[0]) else Absent
    case _ => v
  }

  /** The body fields the handler normalises into the record, in source order. */
  const TextFields: seq<string> := [
    "village_city", "historic_name", "other_name", "other_village_data",
    "street_name", "house_no", "name_adjoining_building", "situated",
    "approach", "owner_data", "occupancy", "past_usage", "present_usage",
    "protected_structure", "condition_preservation", "history_significance",
    "age_building", "age_source", "estimated_year", "estimated_year_source",
    "no_floor", "style_data", "period_consturction", "typology_building",
    "roof_data", "ceiling_data", "wall_data", "jallis_data", "openings_data",
    "floor_data", "building_facades_data", "others_data", "setting_data",
    "decorative_feature"
  ]

  /** The normalised descriptive fields of a record, one entry per text field. */
  function NormaliseFields(body: Body): (r: map<string, Scalar>)
    ensures forall f :: f in r <==> f in TextFields
    ensures forall f :: f in r && !Get(body, f).Arr? ==> r[f] == Get(body, f)
  {
    map f | f in TextFields :: Normalise(Get(body, f))
  }

  /** Normalising an already normalised value changes nothing. */
  lemma NormaliseIdempotent(v: BodyValue)
    ensures Normalise(Normalise(v)) == Normalise(v)
  {
  }

  /**
   * A field repeated in the form arrives as the array of its occurrences; the
   * normalised value is the first occurrence, as it is for a field sent once.
   * Any non-empty array, including a one-element one, gives its first element.
   */
  lemma FirstOccurrenceWins(occurrences: seq<string>)
    requires |occurrences| > 0
    ensures Normalise(if |occurrences| == 1 then Str(occurrences[0]) else Arr(occurrences))
            == Str(occurrences[0])
    ensures Normalise(Arr(occurrences)) == Str(occurrences[0])
  {
  }

  /**
   * A single string is truthy exactly when its normalised value is; for
   * arrays truthiness is not preserved: `["", "x"]` is truthy but normalises
   * to the falsy empty string, and `[]` normalises to an absent value.
   */
  lemma TruthinessAcrossNormalise(v: BodyValue)
    ensures !v.Arr? ==> (Truthy(Normalise(v)) <==> Truthy(v))
    ensures v.Arr? ==> Truthy(v)
    ensures v.Arr? ==> (Truthy(Normalise(v)) <==> |v.items| > 0 && v.items[0] != "")
  {
  }
}
