/** The nutrition composer: extracts glucose, HDL and LDL from the report text,
    turns them into dietary advice by two fixed threshold rules and a fallback,
    and optionally appends a language-model answer to a question. The model is
    handed the extracted metrics and the question. */
module NutritionTool {
  import opened Text
  import opened Patterns

  const Glucose := Pattern("glucose", "Glucose", false)
  const Hdl := Pattern("hdl", "HDL", false)
  const Ldl := Pattern("ldl", "LDL", false)
  const Table := [Glucose, Hdl, Ldl]

  const Header := "Nutrition Recommendations:"
  const ReduceSugar := "- Reduce sugar and refined carb intake"
  const HealthyFats := "- Increase healthy fats (avocados, nuts, olive oil)"
  const Balanced := "- Maintain balanced diet with variety of whole foods"
  const Footer := "Based on analysis of your blood test results"
  const ErrorPrefix := "Error generating nutrition recommendations: "

  /** `NutritionTool._extract_metrics`: each key is present exactly when its
      pattern matches, and holds the whole number its first match captured.
      The digits-only patterns always convert, so extraction never fails. */
  method ExtractMetrics(reportText: string) returns (metrics: Metrics)
    ensures Extract(reportText, Table) == Ok(metrics)
    ensures metrics.Keys <= {"glucose", "hdl", "ldl"}
    ensures forall j | 0 <= j < |Table| :: Table[j].key in metrics <==> FirstMatch(reportText, Table[j]).Some?
    ensures forall j | 0 <= j < |Table| && Table[j].key in metrics ::
      metrics[Table[j].key] == DigitsValue(FirstMatch(reportText, Table[j]).value) as real
  {
    var r := Patterns.ExtractMetrics(reportText, Table);
    TableFits();
    DigitsExtract(reportText, Table);
    metrics := r.value;
  }

  /** The table's keys are distinct and its patterns capture digits only. */
  lemma TableFits()
    ensures DistinctKeys(Table) && forall j :: 0 <= j < |Table| ==> !Table[j].dotted
  {
    assert Keys(Table) == ["glucose", "hdl", "ldl"];
  }

  /** The recommendation lines, with missing metrics read as zero: the sugar line
      when glucose is present and above 100, the healthy-fat line when HDL is
      absent or below 40, and the balanced-diet line when neither fired. */
  function Advice(m: Metrics): (lines: seq<string>)
    ensures ReduceSugar in lines <==> "glucose" in m && m["glucose"] > 100.0
    ensures HealthyFats in lines <==> "hdl" !in m || m["hdl"] < 40.0
    ensures Balanced in lines <==> ReduceSugar !in lines && HealthyFats !in lines
    ensures lines in {[ReduceSugar, HealthyFats], [ReduceSugar], [HealthyFats], [Balanced]}
  {
    var sugar := Get(m, "glucose") > 100.0;
    var fats := Get(m, "hdl") < 40.0;
    if sugar && fats then [ReduceSugar, HealthyFats]
    else if sugar then [ReduceSugar]
    else if fats then [HealthyFats]
    else [Balanced]
  }

  /** LDL is extracted but never affects the advice. */
  lemma {:induction false} LdlIgnored(m: Metrics, v: real)
    ensures Advice(m["ldl" := v]) == Advice(m)
    ensures Advice(m - {"ldl"}) == Advice(m)
  {
  }

  /** With no metric at all the advice is the healthy-fat line, not the
      balanced-diet fallback, because a missing HDL reads as zero. */
  lemma NoMetricsAdvice()
    ensures Advice(map[]) == [HealthyFats]
  {
  }

  /** Without glucose and HDL readings the response is exactly the healthy-fat
      advice, whatever LDL says. */
  lemma {:induction false} NoGlucoseNoHdl(m: Metrics)
    requires "glucose" !in m && "hdl" !in m
    ensures Frame(Header, Advice(m), Footer) == Header + "\n" + HealthyFats + "\n\n" + Footer
  {
    assert Advice(m) == [HealthyFats];
    assert OnNewLines([HealthyFats]) == "\n" + HealthyFats + OnNewLines([]);
  }

  /** In "Glucose 130" the glucose pattern captures "130", which converts to 130.0. */
  lemma GlucoseExample()
    ensures FirstMatch("Glucose 130", Glucose) == Some("130")
    ensures ParseFloat("130") == Some(130.0)
  {
    var t := "Glucose 130";
    assert LabelAt(t, "Glucose", 0);
    assert SkipSpaces(t, 7) == 8;
    assert NumberEnd(t, 8, false) == 11;
    assert t[8..11] == "130";
    assert MatchAt(t, Glucose, 0) == Some("130");
    ParseDigits("130");
    assert DigitsValue("130") == 130;
  }

  /** Glucose 130 and HDL 30 give the sugar and the healthy-fat lines and no fallback. */
  lemma HighGlucoseLowHdl()
    ensures Advice(map["glucose" := 130.0, "hdl" := 30.0]) == [ReduceSugar, HealthyFats]
  {
  }

  /** `NutritionTool._run`: extract, apply the rules in order, frame the lines,
      and answer the question when one is given. Failures of the extraction or
      of the language model come back as a string with the error prefix. */
  method Run(bloodReport: string, query: Option<string>, ask: (Metrics, string) -> Reply) returns (out: string)
    ensures match Extract(bloodReport, Table)
      case Err(e) => out == ErrorPrefix + e
      case Ok(m) =>
        var base := Frame(Header, Advice(m), Footer);
        if Truthy(query) then
          match ask(m, query.value)
          case Answer(content) => out == base + "\n\nQUESTION ANSWER:\n" + content
          case Raised(message) => out == ErrorPrefix + message
        else out == base
  {
    var metrics := ExtractMetrics(bloodReport);
    var recommendations: seq<string> := [];
    if Get(metrics, "glucose") > 100.0 {
      recommendations := recommendations + [ReduceSugar];
    }
    if Get(metrics, "hdl") < 40.0 {
      recommendations := recommendations + [HealthyFats];
    }
    if recommendations == [] {
      recommendations := recommendations + [Balanced];
    }
    assert recommendations == Advice(metrics);
    var baseResponse := Join([Header] + recommendations + ["\n" + Footer], "\n");
    assert baseResponse == Frame(Header, Advice(metrics), Footer);
    if Truthy(query) {
      var qResponse := ask(metrics, query.value);
      match qResponse
      case Answer(content) =>
        return baseResponse + "\n\nQUESTION ANSWER:\n" + content;
      case Raised(message) =>
        return ErrorPrefix + message;
    }
    return baseResponse;
  }
}
