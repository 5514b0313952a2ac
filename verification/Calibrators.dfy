/** JSON values as the object store returns them. */
module Json {
  import opened Options

  datatype Json =
    | Null
    | Bool(b: bool)
    | Int(i: int)
    | Num(r: real)
    | Str(s: string)
    | Arr(items: seq<Json>)
    | Obj(fields: map<string, Json>)

  /** `payload.get(name)`: absent fields and JSON nulls read alike. */
  function Get(j: Json, name: string): Json {
    if j.Obj? && name in j.fields then j.fields[name] else Null
  }

  /** Python truthiness of a parsed value. */
  predicate Truthy(j: Json) {
    match j
    case Null => false
    case Bool(b) => b
    case Int(i) => i != 0
    case Num(r) => r != 0.0
    case Str(s) => s != ""
    case Arr(items) => items != []
    case Obj(fields) => fields != map[]
  }

  /** Exactly null, false, zero and the empty values read as false. */
  lemma TruthyMeans(j: Json)
    ensures !Truthy(j) <==> j in {Null, Bool(false), Int(0), Num(0.0), Str(""), Arr([]), Obj(map[])}
  {}

  function Strings(names: seq<string>): Json {
    Arr(seq(|names|, i requires 0 <= i < |names| => Str(names[i])))
  }

  function AsReal(j: Json): Option<real> {
    match j
    case Num(r) => Some(r)
    case Int(i) => Some(i as real)
    case Bool(b) => Some(if b then 1.0 else 0.0)
    case _ => None
  }

  function AsInt(j: Json): Option<int> {
    match j
    case Int(i) => Some(i)
    case Num(r) => Some(if r >= 0.0 then r.Floor else -(-r).Floor)
    case Bool(b) => Some(if b then 1 else 0)
    case _ => None
  }

  /** `int(...)` cuts a number off towards zero, `float(...)` keeps it, and both take a
      flag as zero or one. */
  lemma NumbersRead(r: real, i: int)
    ensures AsReal(Num(r)) == Some(r) && AsReal(Int(i)) == Some(i as real) && AsInt(Int(i)) == Some(i)
    ensures AsInt(Num(r)).Some?
    ensures var n := AsInt(Num(r)).value as real; if r >= 0.0 then n <= r < n + 1.0 else n - 1.0 < r <= n
    ensures AsInt(Bool(false)) == Some(0) && AsInt(Bool(true)) == Some(1)
    ensures AsReal(Bool(false)) == Some(0.0) && AsReal(Bool(true)) == Some(1.0)
    ensures forall j: Json | j.Null? || j.Str? || j.Arr? || j.Obj? :: AsInt(j) == None && AsReal(j) == None
  {}

  function Reals(values: seq<real>): Json {
    Arr(seq(|values|, i requires 0 <= i < |values| => Num(values[i])))
  }

  function Ints(values: seq<int>): Json {
    Arr(seq(|values|, i requires 0 <= i < |values| => Int(values[i])))
  }

  function ParseReals(j: Json): Option<seq<real>> {
    if j.Arr? then RealItems(j.items) else None
  }

  function RealItems(items: seq<Json>): Option<seq<real>> {
    if items == [] then Some([])
    else
      match (AsReal(items[0]), RealItems(items[1..]))
      case (Some(r), Some(rest)) => Some([r] + rest)
      case _ => None
  }

  function ParseInts(j: Json): Option<seq<int>> {
    if j.Arr? then IntItems(j.items) else None
  }

  function IntItems(items: seq<Json>): Option<seq<int>> {
    if items == [] then Some([])
    else
      match (AsInt(items[0]), IntItems(items[1..]))
      case (Some(i), Some(rest)) => Some([i] + rest)
      case _ => None
  }

  lemma {:induction false} RealsRoundTrip(values: seq<real>)
    ensures ParseReals(Reals(values)) == Some(values)
  {
    if values == [] {
      assert Reals(values).items == [];
    } else {
      RealsRoundTrip(values[1..]);
      assert Reals(values).items[1..] == Reals(values[1..]).items;
      assert [values[0]] + values[1..] == values;
    }
  }

  lemma {:induction false} IntsRoundTrip(values: seq<int>)
    ensures ParseInts(Ints(values)) == Some(values)
  {
    if values == [] {
      assert Ints(values).items == [];
    } else {
      IntsRoundTrip(values[1..]);
      assert Ints(values).items[1..] == Ints(values[1..]).items;
      assert [values[0]] + values[1..] == values;
    }
  }

  /** The strings of a JSON list, as `tuple(...)` keeps them. */
  function ParseStrings(j: Json): Option<seq<string>> {
    if j.Arr? then StringItems(j.items) else None
  }

  function StringItems(items: seq<Json>): Option<seq<string>> {
    if items == [] then Some([])
    else
      match (items[0], StringItems(items[1..]))
      case (Str(s), Some(rest)) => Some([s] + rest)
      case _ => None
  }

  lemma {:induction false} StringsRoundTrip(names: seq<string>)
    ensures ParseStrings(Strings(names)) == Some(names)
  {
    if names == [] {
      assert Strings(names).items == [];
    } else {
      StringsRoundTrip(names[1..]);
      assert Strings(names).items[1..] == Strings(names[1..]).items;
      assert [names[0]] + names[1..] == names;
    }
  }
}

/** The three calibrators as values: their constructor checks and their JSON
    forms. */
module Calibrators {
  import opened Options
  import opened Json

  datatype TemperatureScaler = TemperatureScaler(temperature: real) {
    predicate Valid() { temperature > 0.0 }

    function ToDict(): Json { Obj(map["temperature" := Num(temperature)]) }
  }

  datatype IsotonicCalibrator = IsotonicCalibrator(x: seq<real>, y: seq<real>) {
    predicate Valid() {
      && |x| == |y|
      && |x| > 0
      && forall i | 0 <= i < |x| - 1 :: x[i] <= x[i + 1]
    }

    function ToDict(): Json { Obj(map["x" := Reals(x), "y" := Reals(y)]) }
  }

  datatype NumericCalibrator = NumericCalibrator(
    edges: seq<real>, centers: seq<real>, values: seq<real>, coverages: seq<real>, counts: seq<int>,
    tolerance: real, labelMin: real, labelMax: real, interpolate: bool)
  {
    predicate Valid() {
      && |centers| > 0
      && |edges| == |centers| + 1
      && |values| == |coverages| == |counts| == |centers|
      && tolerance > 0.0
    }

    function ToDict(): Json {
      Obj(map[
            "edges" := Reals(edges), "centers" := Reals(centers), "values" := Reals(values),
            "coverages" := Reals(coverages), "counts" := Ints(counts), "tolerance" := Num(tolerance),
            "label_min" := Num(labelMin), "label_max" := Num(labelMax), "interpolate" := Bool(interpolate)])
    }
  }

  /** None stands for the ValueError or KeyError the constructor raises. */
  function TemperatureFromDict(payload: Json): Option<TemperatureScaler> {
    match AsReal(Get(payload, "temperature"))
    case Some(t) => if TemperatureScaler(t).Valid() then Some(TemperatureScaler(t)) else None
    case None => None
  }

  function IsotonicFromDict(payload: Json): Option<IsotonicCalibrator> {
    match (ParseReals(Get(payload, "x")), ParseReals(Get(payload, "y")))
    case (Some(x), Some(y)) =>
      if IsotonicCalibrator(x, y).Valid() then Some(IsotonicCalibrator(x, y)) else None
    case _ => None
  }

  function NumericFromDict(payload: Json): Option<NumericCalibrator> {
    var interpolate := if payload.Obj? && "interpolate" in payload.fields
                       then Truthy(payload.fields["interpolate"]) else true;
    match (ParseReals(Get(payload, "edges")), ParseReals(Get(payload, "centers")))
    case (Some(edges), Some(centers)) => (
      match (ParseReals(Get(payload, "values")), ParseReals(Get(payload, "coverages")),
          ParseInts(Get(payload, "counts")))
      case (Some(values), Some(coverages), Some(counts)) => (
        match (AsReal(Get(payload, "tolerance")), AsReal(Get(payload, "label_min")), AsReal(Get(payload, "label_max")))
        case (Some(tolerance), Some(lo), Some(hi)) =>
          var c := NumericCalibrator(edges, centers, values, coverages, counts, tolerance, lo, hi, interpolate);
          if c.Valid() then Some(c) else None
        case _ => None)
      case _ => None)
    case _ => None
  }

  /** What the constructors accept: a positive temperature; breakpoints that never fall,
      one value each, at least one; bins with one edge more than centers, one value,
      coverage and count each, at least one, and a positive tolerance. */
  lemma ValidMeans(t: TemperatureScaler, i: IsotonicCalibrator, n: NumericCalibrator)
    ensures t.Valid() <==> t.temperature > 0.0
    ensures i.Valid() <==> |i.x| == |i.y| && i.x != [] && forall k, l | 0 <= k < l < |i.x| :: i.x[k] <= i.x[l]
    ensures n.Valid() <==>
              && n.centers != [] && |n.edges| == |n.centers| + 1
              && |n.values| == |n.coverages| == |n.counts| == |n.centers| && n.tolerance > 0.0
  {
    if i.Valid() {
      forall k, l | 0 <= k < l < |i.x| ensures i.x[k] <= i.x[l] {
        NeverFalls(i.x, k, l);
      }
    }
  }

  lemma {:induction false} NeverFalls(x: seq<real>, k: nat, l: nat)
    requires k <= l < |x| && forall j | 0 <= j < |x| - 1 :: x[j] <= x[j + 1]
    ensures x[k] <= x[l]
  {
    if k < l {
      NeverFalls(x, k, l - 1);
      assert x[l - 1] <= x[l - 1 + 1];
    }
  }

  /** A numeric payload from before the flag was written reads as interpolating. */
  lemma OlderPayloadInterpolates(c: NumericCalibrator)
    requires c.Valid()
    ensures c.ToDict().Obj?
    ensures NumericFromDict(Obj(c.ToDict().fields - {"interpolate"})) == Some(c.(interpolate := true))
  {
    NumericRoundTrip(c);
    var older := Obj(c.ToDict().fields - {"interpolate"});
    forall name | name != "interpolate" ensures Get(older, name) == Get(c.ToDict(), name) {}
  }

  lemma TemperatureRoundTrip(t: TemperatureScaler)
    requires t.Valid()
    ensures TemperatureFromDict(t.ToDict()) == Some(t)
  {}

  lemma IsotonicRoundTrip(c: IsotonicCalibrator)
    requires c.Valid()
    ensures IsotonicFromDict(c.ToDict()) == Some(c)
  {
    RealsRoundTrip(c.x);
    RealsRoundTrip(c.y);
  }

  lemma NumericRoundTrip(c: NumericCalibrator)
    requires c.Valid()
    ensures NumericFromDict(c.ToDict()) == Some(c)
  {
    RealsRoundTrip(c.edges);
    RealsRoundTrip(c.centers);
    RealsRoundTrip(c.values);
    RealsRoundTrip(c.coverages);
    IntsRoundTrip(c.counts);
  }

  /** The `calibrators` list of an isotonic artifact; a class without a curve is null. */
  function CalibratorsToJson(calibrators: seq<Option<IsotonicCalibrator>>): Json {
    Arr(seq(|calibrators|, i requires 0 <= i < |calibrators| =>
      match calibrators[i] case Some(c) => c.ToDict() case None => Null))
  }

  function CalibratorItems(items: seq<Json>): Option<seq<Option<IsotonicCalibrator>>> {
    if items == [] then Some([])
    else
      match CalibratorItems(items[1..])
      case None => None
      case Some(rest) =>
        if items[0].Null? then Some([None] + rest)
        else
          match IsotonicFromDict(items[0])
          case Some(c) => Some([Some(c)] + rest)
          case None => None
  }

  /** `payload.get("calibrators", [])`: a missing list reads as empty. */
  function ParseCalibrators(payload: Json): Option<seq<Option<IsotonicCalibrator>>> {
    if payload.Obj? && "calibrators" !in payload.fields then Some([])
    else
      match Get(payload, "calibrators")
      case Arr(items) => CalibratorItems(items)
      case _ => None
  }

  lemma {:induction false} CalibratorsRoundTrip(calibrators: seq<Option<IsotonicCalibrator>>)
    requires forall i | 0 <= i < |calibrators| && calibrators[i].Some? :: calibrators[i].value.Valid()
    ensures CalibratorItems(CalibratorsToJson(calibrators).items) == Some(calibrators)
  {
    if calibrators != [] {
      var rest := calibrators[1..];
      forall i | 0 <= i < |rest| && rest[i].Some? ensures rest[i].value.Valid() {
        assert rest[i] == calibrators[i + 1];
      }
      CalibratorsRoundTrip(rest);
      assert CalibratorsToJson(calibrators).items[1..] == CalibratorsToJson(rest).items;
      if calibrators[0].Some? {
        IsotonicRoundTrip(calibrators[0].value);
      }
      assert [calibrators[0]] + rest == calibrators;
    }
  }
}
