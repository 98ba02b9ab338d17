/** The measurement record, its range check and the analysis record
    (data/model/AbgData.kt). */
module AbgData {
  import opened Wrappers

  /** One arterial blood-gas reading; all fields are immutable. */
  datatype Measurement = Measurement(ph: real, pco2: real, hco3: real, pao2: real, be: real)

  /** `x in lo..hi`: Kotlin's closed range. */
  predicate InRange(x: real, lo: real, hi: real) {
    lo <= x <= hi
  }

  /** `AbgData.isValid()`: every field lies inside its own closed range. */
  predicate IsValid(m: Measurement) {
    InRange(m.ph, 6.8, 7.8) &&
    InRange(m.pco2, 10.0, 100.0) &&
    InRange(m.hco3, 5.0, 50.0) &&
    InRange(m.pao2, 40.0, 600.0) &&
    InRange(m.be, -30.0, 30.0)
  }

  /** A closed interval of physiologic values. */
  datatype Bounds = Bounds(lo: real, hi: real)

  /** The five fields in declaration order. */
  function Fields(m: Measurement): (f: seq<real>)
    ensures |f| == 5
  {
    [m.ph, m.pco2, m.hco3, m.pao2, m.be]
  }

  /** The documented physiologic range of each field, in the same order. */
  const FieldBounds: seq<Bounds> :=
    [Bounds(6.8, 7.8), Bounds(10.0, 100.0), Bounds(5.0, 50.0), Bounds(40.0, 600.0), Bounds(-30.0, 30.0)]

  /** Field `k` of `m` lies inside its documented range. */
  predicate FieldOk(m: Measurement, k: nat)
    requires k < 5
  {
    FieldBounds[k].lo <= Fields(m)[k] <= FieldBounds[k].hi
  }

  /** A reading is valid exactly when each of its five fields is inside its range. */
  lemma ValidIffEveryFieldInRange(m: Measurement)
    ensures IsValid(m) <==> forall k :: 0 <= k < 5 ==> FieldOk(m, k)
  {
    if forall k :: 0 <= k < 5 ==> FieldOk(m, k) {
      assert FieldOk(m, 0) && FieldOk(m, 1) && FieldOk(m, 2) && FieldOk(m, 3) && FieldOk(m, 4);
    }
  }

  /** One field outside its range rejects the reading, whatever the others are. */
  lemma OneFieldOutOfRangeInvalidates(m: Measurement, k: nat)
    requires k < 5 && !FieldOk(m, k)
    ensures !IsValid(m)
  {
    ValidIffEveryFieldInRange(m);
  }

  /** The bounds are inclusive: both extreme readings are accepted. */
  lemma BoundaryReadingsValid()
    ensures IsValid(Measurement(6.8, 10.0, 5.0, 40.0, -30.0))
    ensures IsValid(Measurement(7.8, 100.0, 50.0, 600.0, 30.0))
  {
  }

  /** A value just outside any range is rejected (pH 6.79 below, pH 7.81 above, and so on). */
  lemma JustOutsideInvalid(m: Measurement)
    ensures m.ph == 6.79 || m.ph == 7.81 ==> !IsValid(m)
    ensures m.pco2 == 9.99 || m.pco2 == 100.01 ==> !IsValid(m)
    ensures m.hco3 == 4.99 || m.hco3 == 50.01 ==> !IsValid(m)
    ensures m.pao2 == 39.99 || m.pao2 == 600.01 ==> !IsValid(m)
    ensures m.be == -30.01 || m.be == 30.01 ==> !IsValid(m)
  {
  }

  /** Validity is decided by the five field values alone. This holds by
      construction: a `Measurement` has exactly these five fields, so equal
      field lists mean equal readings. */
  lemma ValidityDependsOnlyOnFields(m1: Measurement, m2: Measurement)
    requires Fields(m1) == Fields(m2)
    ensures IsValid(m1) == IsValid(m2)
  {
  }

  /** `AbgAnalysis`: one analysis attempt. The timestamp (a `java.util.Date`)
      is kept as milliseconds since the epoch. */
  datatype Analysis = Analysis(
    id: string,
    userId: string,
    abgData: Measurement,
    interpretation: string,
    suggestedConditions: string,
    treatmentRecommendations: string,
    timestamp: nat,
    isLoading: bool,
    error: Option<string>)

  /** `AbgAnalysis(abgData = d, timestamp = t)`: every other field at its
      declared default. */
  function WithDefaults(d: Measurement, t: nat): Analysis {
    Analysis("", "", d, "", "", "", t, false, None)
  }

  /** A record is unresolved while its three texts are all empty and it carries no error. */
  predicate Unresolved(a: Analysis) {
    a.interpretation == "" && a.suggestedConditions == "" &&
    a.treatmentRecommendations == "" && a.error == None
  }

  /** A record built from defaults is unresolved, not loading, with empty ids. */
  lemma DefaultsAreBlank(d: Measurement, t: nat)
    ensures Unresolved(WithDefaults(d, t))
    ensures !WithDefaults(d, t).isLoading && WithDefaults(d, t).id == "" && WithDefaults(d, t).userId == ""
    ensures WithDefaults(d, t).abgData == d && WithDefaults(d, t).timestamp == t
  {
  }
}
