/** The calibration store as a key/value map: what a fit writes, and what one
    uninterrupted load reads back. */
module RegistryStore {
  import opened Options
  import opened Json
  import opened Calibrators

  datatype Pair = Pair(scenario: string, decisionType: string)
  datatype BlobName = Manifest | Temperature | Isotonic | Numeric
  datatype Key = Latest(pair: Pair) | Blob(pair: Pair, version: string, name: BlobName)
  datatype VersionId = VersionId(pair: Pair, version: string)
  type Store = map<Key, Json>

  /** What one training call hands to the registry. */
  datatype FitInfo = FitInfo(createdAt: string, description: string, metadata: map<string, Json>)
  datatype Fit =
    | ClassFit(temperature: TemperatureScaler, calibrators: seq<Option<IsotonicCalibrator>>,
               classNames: Option<seq<string>>, info: FitInfo)
    | NumericFit(temperature: TemperatureScaler, numeric: NumericCalibrator, numClasses: int, info: FitInfo)

  /** One calibrator slot per class, at least two classes, and artifacts the
      constructors accept: what the two training functions guarantee. */
  predicate ValidFit(fit: Fit) {
    && fit.temperature.Valid()
    && match fit
       case ClassFit(_, calibrators, _, _) =>
         && |calibrators| >= 2
         && forall i | 0 <= i < |calibrators| && calibrators[i].Some? :: calibrators[i].value.Valid()
       case NumericFit(_, numeric, numClasses, _) => numeric.Valid() && numClasses >= 2
  }

  datatype Bundle = Bundle(
    pair: Pair, version: string, temperature: TemperatureScaler, numClasses: Option<int>,
    classNames: Option<seq<string>>, isotonic: Option<seq<Option<IsotonicCalibrator>>>,
    numeric: Option<NumericCalibrator>, createdAt: Json, description: Json, metadata: Json)

  datatype LoadError = NoSuchVersion | Inconsistent | BadArtifact | ClassMismatch
  /** A load returns a bundle, "untrained" (None), or raises. */
  datatype Outcome = Served(bundle: Option<Bundle>) | Raised(error: LoadError)

  // ---- writes ----

  function NamesToJson(classNames: Option<seq<string>>): Json {
    if classNames.Some? && classNames.value != [] then Strings(classNames.value) else Null
  }

  function ManifestJson(pair: Pair, version: string, fit: Fit): Json {
    Obj(map[
          "scenario" := Str(pair.scenario),
          "decision_type" := Str(pair.decisionType),
          "version" := Str(version),
          "created_at" := Str(fit.info.createdAt),
          "num_classes" := Int(if fit.ClassFit? then |fit.calibrators| else fit.numClasses),
          "class_names" := if fit.ClassFit? then NamesToJson(fit.classNames) else Null,
          "description" := Str(fit.info.description),
          "artifacts" := Strings([if fit.ClassFit? then "isotonic.json" else "numeric.json", "temperature.json"]),
          "metadata" := Obj(fit.info.metadata)])
  }

  function IsotonicJson(calibrators: seq<Option<IsotonicCalibrator>>, classNames: Option<seq<string>>): Json {
    Obj(map[
          "num_classes" := Int(|calibrators|),
          "class_names" := NamesToJson(classNames),
          "calibrators" := CalibratorsToJson(calibrators)])
  }

  /** The content a fit stores under each artifact name of its version. */
  function Payload(pair: Pair, version: string, fit: Fit, name: BlobName): Option<Json> {
    match name
    case Manifest => Some(ManifestJson(pair, version, fit))
    case Temperature => Some(fit.temperature.ToDict())
    case Isotonic => if fit.ClassFit? then Some(IsotonicJson(fit.calibrators, fit.classNames)) else None
    case Numeric => if fit.NumericFit? then Some(fit.numeric.ToDict()) else None
  }

  function PointerJson(version: string, updatedAt: string): Json {
    Obj(map["version" := Str(version), "updated_at" := Str(updatedAt)])
  }

  /** The writes of one fit in program order: both artifacts, the manifest,
      and the pointer last. */
  function Writes(pair: Pair, version: string, fit: Fit): (w: seq<(Key, Json)>)
    ensures |w| == 4
  {
    [ (Blob(pair, version, Temperature), fit.temperature.ToDict()),
      if fit.ClassFit? then (Blob(pair, version, Isotonic), IsotonicJson(fit.calibrators, fit.classNames))
      else (Blob(pair, version, Numeric), fit.numeric.ToDict()),
      (Blob(pair, version, Manifest), ManifestJson(pair, version, fit)),
      (Latest(pair), PointerJson(version, fit.info.createdAt)) ]
  }

  // ---- reads ----

  function Read(store: Store, key: Key): Option<Json> {
    if key in store then Some(store[key]) else None
  }

  /** The version a pointer object names; an absent or empty one names none. */
  function PointerVersion(pointer: Option<Json>): Option<string> {
    if pointer.Some? && Get(pointer.value, "version").Str? && Get(pointer.value, "version").s != ""
    then Some(Get(pointer.value, "version").s) else None
  }

  function TruthyInt(j: Json): Option<int> {
    if Truthy(j) then AsInt(j) else None
  }

  function TruthyStrings(j: Json): Option<seq<string>> {
    if Truthy(j) then ParseStrings(j) else None
  }

  /** Builds the bundle from the four objects of one version. */
  function Assemble(pair: Pair, version: string, manifest: Option<Json>, temperature: Json,
                    isotonic: Option<Json>, numeric: Option<Json>): Outcome
  {
    var m := if manifest.Some? then manifest.value else Obj(map[]);
    match TemperatureFromDict(temperature)
    case None => Raised(BadArtifact)
    case Some(scaler) =>
      var curves := if isotonic.Some? then ParseCalibrators(isotonic.value) else Some([]);
      var bins := if numeric.Some? && Truthy(numeric.value) then NumericFromDict(numeric.value) else None;
      if curves.None? || (numeric.Some? && Truthy(numeric.value) && bins.None?) then Raised(BadArtifact)
      else
        var count :=
          if isotonic.None? then Get(m, "num_classes")
          else
            var own := if isotonic.value.Obj? && "num_classes" in isotonic.value.fields
                       then isotonic.value.fields["num_classes"] else Get(m, "num_classes");
            if Truthy(own) then own else Int(|curves.value|);
        var names :=
          if isotonic.Some? && Truthy(Get(isotonic.value, "class_names"))
          then Get(isotonic.value, "class_names") else Get(m, "class_names");
        var metadata := Get(m, "metadata");
        Served(Some(Bundle(
          pair, version, scaler, TruthyInt(count), TruthyStrings(names),
          if isotonic.Some? then Some(curves.value) else None, bins,
          Get(m, "created_at"), Get(m, "description"),
          if Truthy(metadata) then metadata else Obj(map[]))))
  }

  function LoadVersion(store: Store, pair: Pair, version: string): Outcome {
    match Read(store, Blob(pair, version, Temperature))
    case None => Raised(Inconsistent)
    case Some(temperature) =>
      Assemble(pair, version, Read(store, Blob(pair, version, Manifest)), temperature,
               Read(store, Blob(pair, version, Isotonic)), Read(store, Blob(pair, version, Numeric)))
  }

  /** A load against a store nobody else touches: the reference an interleaved
      load is compared with. */
  function LoadUncached(store: Store, pair: Pair, pin: Option<string>): Outcome {
    match pin
    case Some(version) =>
      if Blob(pair, version, Manifest) !in store then Raised(NoSuchVersion)
      else LoadVersion(store, pair, version)
    case None =>
      match PointerVersion(Read(store, Latest(pair)))
      case None => Served(None)
      case Some(version) => LoadVersion(store, pair, version)
  }

  /** `_check_classes`: a bundle fitted for another class count is refused. */
  function CheckClasses(bundle: Option<Bundle>, numClasses: Option<int>): Outcome {
    if bundle.Some? && numClasses.Some? && bundle.value.numClasses.Some?
       && bundle.value.numClasses != numClasses
    then Raised(ClassMismatch) else Served(bundle)
  }

  /** A fit is served to a request for its own class count or for any, refused to a
      request for another count; "untrained" is refused to none. */
  lemma CheckedFit(pair: Pair, version: string, fit: Fit, numClasses: Option<int>)
    ensures var count := if fit.ClassFit? then |fit.calibrators| else fit.numClasses;
            CheckClasses(Some(BundleOf(pair, version, fit)), numClasses) ==
              if numClasses.None? || numClasses.value == count
              then Served(Some(BundleOf(pair, version, fit))) else Raised(ClassMismatch)
    ensures CheckClasses(None, numClasses) == Served(None)
  {}

  function Checked(outcome: Outcome, numClasses: Option<int>): Outcome {
    match outcome
    case Served(bundle) => CheckClasses(bundle, numClasses)
    case Raised(_) => outcome
  }

  // ---- the round trip ----

  /** What a reader must get back, said in terms of the fit alone. */
  function BundleOf(pair: Pair, version: string, fit: Fit): Bundle {
    Bundle(
      pair, version, fit.temperature,
      Some(if fit.ClassFit? then |fit.calibrators| else fit.numClasses),
      if fit.ClassFit? && fit.classNames.Some? && fit.classNames.value != [] then fit.classNames else None,
      if fit.ClassFit? then Some(fit.calibrators) else None,
      if fit.NumericFit? then Some(fit.numeric) else None,
      Str(fit.info.createdAt), Str(fit.info.description), Obj(fit.info.metadata))
  }

  lemma NamesRoundTrip(classNames: Option<seq<string>>)
    ensures TruthyStrings(NamesToJson(classNames))
         == if classNames.Some? && classNames.value != [] then classNames else None
  {
    if classNames.Some? && classNames.value != [] {
      StringsRoundTrip(classNames.value);
      assert |Strings(classNames.value).items| == |classNames.value|;
    }
  }

  lemma ManifestFields(pair: Pair, version: string, fit: Fit)
    ensures DescribesFit(ManifestJson(pair, version, fit), fit)
  {}

  lemma IsotonicFields(calibrators: seq<Option<IsotonicCalibrator>>, classNames: Option<seq<string>>)
    requires forall i | 0 <= i < |calibrators| && calibrators[i].Some? :: calibrators[i].value.Valid()
    ensures var j := IsotonicJson(calibrators, classNames);
            && ParseCalibrators(j) == Some(calibrators)
            && j.Obj? && "num_classes" in j.fields && j.fields["num_classes"] == Int(|calibrators|)
            && Get(j, "class_names") == NamesToJson(classNames)
  {
    CalibratorsRoundTrip(calibrators);
    var j := IsotonicJson(calibrators, classNames);
    assert "calibrators" in j.fields && j.fields["calibrators"] == CalibratorsToJson(calibrators);
  }

  /** Decoding the objects a fit stored gives back the fit: every artifact's
      JSON round trip, composed. */
  lemma AssembleRestoresFit(pair: Pair, version: string, fit: Fit)
    requires ValidFit(fit)
    ensures Assemble(pair, version, Payload(pair, version, fit, Manifest), fit.temperature.ToDict(),
                     Payload(pair, version, fit, Isotonic), Payload(pair, version, fit, Numeric))
         == Served(Some(BundleOf(pair, version, fit)))
  {
    TemperatureRoundTrip(fit.temperature);
    ManifestFields(pair, version, fit);
    var m := ManifestJson(pair, version, fit);
    if fit.ClassFit? {
      IsotonicFields(fit.calibrators, fit.classNames);
      NamesRoundTrip(fit.classNames);
      ClassFitRestored(pair, version, fit, m, IsotonicJson(fit.calibrators, fit.classNames), fit.temperature.ToDict());
    } else {
      NumericRoundTrip(fit.numeric);
      assert "tolerance" in fit.numeric.ToDict().fields;
      NumericFitRestored(pair, version, fit, m, fit.numeric.ToDict(), fit.temperature.ToDict());
    }
  }

  predicate DescribesFit(m: Json, fit: Fit) {
    && Get(m, "num_classes") == Int(if fit.ClassFit? then |fit.calibrators| else fit.numClasses)
    && Get(m, "class_names") == (if fit.ClassFit? then NamesToJson(fit.classNames) else Null)
    && Get(m, "created_at") == Str(fit.info.createdAt)
    && Get(m, "description") == Str(fit.info.description)
    && Get(m, "metadata") == Obj(fit.info.metadata)
  }

  lemma ClassFitRestored(pair: Pair, version: string, fit: Fit, m: Json, j: Json, t: Json)
    requires ValidFit(fit) && fit.ClassFit? && DescribesFit(m, fit)
    requires TemperatureFromDict(t) == Some(fit.temperature)
    requires ParseCalibrators(j) == Some(fit.calibrators)
    requires j.Obj? && "num_classes" in j.fields && j.fields["num_classes"] == Int(|fit.calibrators|)
    requires Get(j, "class_names") == NamesToJson(fit.classNames)
    requires TruthyStrings(NamesToJson(fit.classNames))
          == if fit.classNames.Some? && fit.classNames.value != [] then fit.classNames else None
    ensures Assemble(pair, version, Some(m), t, Some(j), None) == Served(Some(BundleOf(pair, version, fit)))
  {}

  lemma NumericFitRestored(pair: Pair, version: string, fit: Fit, m: Json, j: Json, t: Json)
    requires ValidFit(fit) && fit.NumericFit? && DescribesFit(m, fit)
    requires TemperatureFromDict(t) == Some(fit.temperature)
    requires Truthy(j) && NumericFromDict(j) == Some(fit.numeric)
    ensures Assemble(pair, version, Some(m), t, None, Some(j)) == Served(Some(BundleOf(pair, version, fit)))
  {}

  /** Every object of this version is exactly what its fit stores there, and
      names the fit does not use are absent. */
  ghost predicate Complete(store: Store, pair: Pair, version: string, fit: Fit) {
    && ValidFit(fit)
    && forall name :: Read(store, Blob(pair, version, name)) == Payload(pair, version, fit, name)
  }

  lemma CompleteLoads(store: Store, pair: Pair, version: string, fit: Fit)
    requires Complete(store, pair, version, fit)
    ensures LoadVersion(store, pair, version) == Served(Some(BundleOf(pair, version, fit)))
    ensures LoadUncached(store, pair, Some(version)) == Served(Some(BundleOf(pair, version, fit)))
  {
    assert Read(store, Blob(pair, version, Temperature)) == Payload(pair, version, fit, Temperature);
    assert Read(store, Blob(pair, version, Manifest)) == Payload(pair, version, fit, Manifest);
    assert Read(store, Blob(pair, version, Isotonic)) == Payload(pair, version, fit, Isotonic);
    assert Read(store, Blob(pair, version, Numeric)) == Payload(pair, version, fit, Numeric);
    AssembleRestoresFit(pair, version, fit);
  }

  /** All four writes of a fit into a store that holds none of the version's
      keys make the version complete and current. */
  function WriteAll(store: Store, writes: seq<(Key, Json)>): Store
    decreases |writes|
  {
    if writes == [] then store else WriteAll(store[writes[0].0 := writes[0].1], writes[1..])
  }

  lemma WriteAllFour(store: Store, w: seq<(Key, Json)>)
    requires |w| == 4
    ensures WriteAll(store, w) == store[w[0].0 := w[0].1][w[1].0 := w[1].1][w[2].0 := w[2].1][w[3].0 := w[3].1]
  {
    var s1 := store[w[0].0 := w[0].1];
    var s2 := s1[w[1].0 := w[1].1];
    var s3 := s2[w[2].0 := w[2].1];
    var w1, w2, w3 := w[1..], w[2..], w[3..];
    assert w1[1..] == w2 && w2[1..] == w3 && w3[1..] == [];
    assert WriteAll(s3, w3) == WriteAll(s3[w[3].0 := w[3].1], []);
    assert WriteAll(s2, w2) == WriteAll(s3, w3);
    assert WriteAll(s1, w1) == WriteAll(s2, w2);
  }

  lemma CommitThenLoad(store: Store, pair: Pair, version: string, fit: Fit)
    requires ValidFit(fit) && version != ""
    requires forall name :: Blob(pair, version, name) !in store
    ensures var after := WriteAll(store, Writes(pair, version, fit));
            && LoadUncached(after, pair, None) == Served(Some(BundleOf(pair, version, fit)))
            && forall other: Key | other != Latest(pair)
                  && !(other.Blob? && other.pair == pair && other.version == version) ::
                 Read(after, other) == Read(store, other)
  {
    hide LoadVersion, ManifestJson, IsotonicJson, PointerJson, PointerVersion, ValidFit, WriteAll;
    var w := Writes(pair, version, fit);
    WriteAllFour(store, w);
    var after := WriteAll(store, w);
    forall name ensures Read(after, Blob(pair, version, name)) == Payload(pair, version, fit, name) {
      match name
      case Manifest => case Temperature => case Isotonic => case Numeric =>
    }
    CompleteLoads(after, pair, version, fit);
    PointerNames(version, fit.info.createdAt);
    assert Read(after, Latest(pair)) == Some(PointerJson(version, fit.info.createdAt));
  }

  lemma PointerNames(version: string, updatedAt: string)
    requires version != ""
    ensures PointerVersion(Some(PointerJson(version, updatedAt))) == Some(version)
  {}

  /** What a manifest and a pointer say of the fit they stand for. */
  lemma ManifestMeans(pair: Pair, version: string, fit: Fit)
    ensures var m := ManifestJson(pair, version, fit);
            && Get(m, "scenario") == Str(pair.scenario) && Get(m, "decision_type") == Str(pair.decisionType)
            && Get(m, "version") == Str(version) && Get(m, "created_at") == Str(fit.info.createdAt)
            && Get(m, "description") == Str(fit.info.description) && Get(m, "metadata") == Obj(fit.info.metadata)
            && (fit.ClassFit? ==> Get(m, "num_classes") == Int(|fit.calibrators|)
                                  && Get(m, "artifacts") == Arr([Str("isotonic.json"), Str("temperature.json")]))
            && (fit.NumericFit? ==> Get(m, "num_classes") == Int(fit.numClasses) && Get(m, "class_names") == Null
                                    && Get(m, "artifacts") == Arr([Str("numeric.json"), Str("temperature.json")]))
    ensures var p := PointerJson(version, fit.info.createdAt);
            Get(p, "version") == Str(version) && Get(p, "updated_at") == Str(fit.info.createdAt)
  {
    assert Strings(["isotonic.json", "temperature.json"]) == Arr([Str("isotonic.json"), Str("temperature.json")]);
    assert Strings(["numeric.json", "temperature.json"]) == Arr([Str("numeric.json"), Str("temperature.json")]);
  }

  /** The order in which a fit is written: its artifacts, the manifest, the pointer. */
  lemma WritesAre(pair: Pair, version: string, fit: Fit)
    ensures var w := Writes(pair, version, fit);
            && w[0] == (Blob(pair, version, Temperature), fit.temperature.ToDict())
            && (fit.ClassFit? ==> w[1].0 == Blob(pair, version, Isotonic))
            && (fit.NumericFit? ==> w[1] == (Blob(pair, version, Numeric), fit.numeric.ToDict()))
            && w[2].0 == Blob(pair, version, Manifest) && w[3].0 == Latest(pair)
  {}

  /** An isotonic object from before it named its classes takes the manifest's count
      and names, and without those as many classes as it has curves. */
  lemma OlderIsotonicObject(pair: Pair, version: string, fit: Fit)
    requires ValidFit(fit) && fit.ClassFit?
    ensures IsotonicJson(fit.calibrators, fit.classNames).Obj?
    ensures var older := Obj(IsotonicJson(fit.calibrators, fit.classNames).fields - {"num_classes", "class_names"});
            && Assemble(pair, version, Some(ManifestJson(pair, version, fit)), fit.temperature.ToDict(), Some(older),
                  None)
               == Served(Some(BundleOf(pair, version, fit)))
            && var bare := Assemble(pair, version, None, fit.temperature.ToDict(), Some(older), None);
               && bare.Served? && bare.bundle.Some?
               && bare.bundle.value.numClasses == Some(|fit.calibrators|) && bare.bundle.value.classNames == None
               && bare.bundle.value.isotonic == Some(fit.calibrators)
  {
    TemperatureRoundTrip(fit.temperature);
    ManifestFields(pair, version, fit);
    IsotonicFields(fit.calibrators, fit.classNames);
    NamesRoundTrip(fit.classNames);
    var j := IsotonicJson(fit.calibrators, fit.classNames);
    var older := Obj(j.fields - {"num_classes", "class_names"});
    assert Get(older, "calibrators") == Get(j, "calibrators") && Get(older, "class_names") == Null;
    SameCalibrators(older, j);
  }

  lemma SameCalibrators(a: Json, b: Json)
    requires a.Obj? && b.Obj? && "calibrators" in a.fields && "calibrators" in b.fields
    requires a.fields["calibrators"] == b.fields["calibrators"]
    ensures ParseCalibrators(a) == ParseCalibrators(b)
  {}
}
