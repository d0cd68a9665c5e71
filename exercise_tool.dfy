/** The exercise composer: extracts hemoglobin and hematocrit from the report
    text, chooses a walking or a cardio line by the activity level, adds an iron
    line when hemoglobin is missing or low, and optionally appends a
    language-model answer to a question. The model is handed the extracted
    metrics and the question. */
module ExerciseTool {
  import opened Text
  import opened Patterns

  const Hemoglobin := Pattern("hemoglobin", "Hemoglobin", true)
  const Hematocrit := Pattern("hematocrit", "Hematocrit", true)
  const Table := [Hemoglobin, Hematocrit]

  const Header := "Exercise Recommendations:"
  const Walks := "- Start with 20-30 min walks daily"
  const Cardio := "- 30-45 min cardio 4-5x/week"
  const IronBoosting := "- Include iron-boosting activities like swimming"
  const Footer := "Adjust intensity based on how you feel"
  const ErrorPrefix := "Error generating exercise plan: "

  /** `ExerciseTool._extract_metrics`: on success each key is present exactly
      when its pattern matches and holds the converted capture; a capture that
      `float()` rejects makes the whole extraction fail, hemoglobin's first. */
  method ExtractMetrics(reportText: string) returns (r: Result<Metrics>)
    ensures r == Extract(reportText, Table)
    ensures r.Ok? <==> Converts(reportText, Hemoglobin) && Converts(reportText, Hematocrit)
    ensures r.Ok? ==> r.value.Keys <= {"hemoglobin", "hematocrit"}
    ensures r.Ok? ==> forall j | 0 <= j < |Table| ::
      && (Table[j].key in r.value <==> FirstMatch(reportText, Table[j]).Some?)
      && (Table[j].key in r.value ==> Some(r.value[Table[j].key]) == ParseFloat(FirstMatch(reportText, Table[j]).value))
    ensures r.Err? && !Converts(reportText, Hemoglobin) ==>
      r.message == FloatError(FirstMatch(reportText, Hemoglobin).value)
    ensures r.Err? && Converts(reportText, Hemoglobin) ==>
      r.message == FloatError(FirstMatch(reportText, Hematocrit).value)
  {
    r := Patterns.ExtractMetrics(reportText, Table);
    ExtractFails(reportText, Table);
    if r.Ok? {
      TableKeysDistinct();
      ExtractKeys(reportText, Table);
      assert Converts(reportText, Table[0]) && Converts(reportText, Table[1]);
    } else {
      assert !Converts(reportText, Table[0]) || !Converts(reportText, Table[1]);
    }
  }

  lemma TableKeysDistinct()
    ensures DistinctKeys(Table)
  {
    assert Keys(Table) == ["hemoglobin", "hematocrit"];
  }

  /** The recommendation lines: walks when the activity level is exactly "low",
      cardio otherwise, then the iron line when hemoglobin is absent or below 12.
      There is no fallback line and hematocrit plays no part. */
  function Advice(activityLevel: Option<string>, m: Metrics): (lines: seq<string>)
    ensures 1 <= |lines| <= 2
    ensures lines[0] == (if activityLevel == Some("low") then Walks else Cardio)
    ensures |lines| == 2 <==> "hemoglobin" !in m || m["hemoglobin"] < 12.0
    ensures |lines| == 2 ==> lines[1] == IronBoosting
  {
    var first := if activityLevel == Some("low") then Walks else Cardio;
    if Get(m, "hemoglobin") < 12.0 then [first, IronBoosting] else [first]
  }

  /** Hematocrit is extracted but never affects the advice. */
  lemma {:induction false} HematocritIgnored(activityLevel: Option<string>, m: Metrics, v: real)
    ensures Advice(activityLevel, m["hematocrit" := v]) == Advice(activityLevel, m)
    ensures Advice(activityLevel, m - {"hematocrit"}) == Advice(activityLevel, m)
  {
  }

  /** A missing hemoglobin reads as zero and so fires the iron line. */
  lemma {:induction false} NoHemoglobinAdvice(activityLevel: Option<string>, m: Metrics)
    requires "hemoglobin" !in m
    ensures IronBoosting in Advice(activityLevel, m)
  {
  }

  /** In "Hemoglobin 11.5" the pattern captures "11.5". */
  lemma LowHemoglobinCapture()
    ensures FirstMatch("Hemoglobin 11.5", Hemoglobin) == Some("11.5")
  {
    var t := "Hemoglobin 11.5";
    assert LabelAt(t, "Hemoglobin", 0);
    assert SkipSpaces(t, 10) == 11;
    assert NumberEnd(t, 11, true) == 15;
    assert t[11..15] == "11.5";
    assert MatchAt(t, Hemoglobin, 0) == Some("11.5");
  }

  /** The capture "11.5" converts to 11.5, below the threshold, so the iron line
      follows the cardio line. */
  lemma LowHemoglobinValue()
    ensures ParseFloat("11.5") == Some(11.5)
    ensures Advice(Some("moderate"), map["hemoglobin" := 11.5]) == [Cardio, IronBoosting]
  {
    assert "11.5" == "11" + "." + "5";
    ParseDecimal("11", "5");
    assert DigitsValue("11") == 11 by {
      assert "11"[..1] == "1" && "1"[..0] == [];
    }
    assert DigitsValue("5") == 5 by {
      assert "5"[..0] == [];
    }
  }

  /** `float()` rejects the captures "." and "1.2.3" that `[\d.]+` lets through. */
  lemma MalformedCaptures()
    ensures ParseFloat(".") == None
    ensures ParseFloat("1.2.3") == None
  {
    ParseFloatAccepts(".");
    ParseFloatAccepts("1.2.3");
    assert "1.2.3"[1] == '.' && "1.2.3"[3] == '.';
  }

  /** A hemoglobin capture that does not convert makes the extraction fail with
      `float()`'s message, so `Run` answers with the error prefix and that
      message, with or without a question. */
  lemma {:induction false} MalformedHemoglobin(text: string, tok: string)
    requires FirstMatch(text, Hemoglobin) == Some(tok) && ParseFloat(tok).None?
    ensures Extract(text, Table) == Err(FloatError(tok))
  {
    ExtractFails(text, Table);
    assert !Converts(text, Table[0]);
  }

  /** In "Hemoglobin ." the pattern captures the lone dot and extraction fails. */
  lemma LoneDotReport()
    ensures Extract("Hemoglobin .", Table) == Err(FloatError("."))
  {
    var t := "Hemoglobin .";
    assert LabelAt(t, "Hemoglobin", 0);
    assert SkipSpaces(t, 10) == 11;
    assert NumberEnd(t, 11, true) == 12;
    assert t[11..12] == ".";
    assert MatchAt(t, Hemoglobin, 0) == Some(".");
    MalformedCaptures();
    MalformedHemoglobin(t, ".");
  }

  /** The same holds for a hematocrit capture, although hematocrit never
      affects the advice. */
  lemma {:induction false} MalformedHematocrit(text: string, tok: string)
    requires Converts(text, Hemoglobin)
    requires FirstMatch(text, Hematocrit) == Some(tok) && ParseFloat(tok).None?
    ensures Extract(text, Table) == Err(FloatError(tok))
  {
    ExtractFails(text, Table);
    assert Converts(text, Table[0]) && !Converts(text, Table[1]);
  }

  /** `ExerciseTool._run`: extract, choose the lines, frame them, and answer the
      question when one is given. Failures of the extraction or of the language
      model come back as a string with the error prefix. */
  method Run(bloodReport: string, query: Option<string>, activityLevel: Option<string>,
             ask: (Metrics, string) -> Reply) returns (out: string)
    ensures match Extract(bloodReport, Table)
      case Err(e) => out == ErrorPrefix + e
      case Ok(m) =>
        var base := Frame(Header, Advice(activityLevel, m), Footer);
        if Truthy(query) then
          match ask(m, query.value)
          case Answer(content) => out == base + "\n\nQUESTION ANSWER:\n" + content
          case Raised(message) => out == ErrorPrefix + message
        else out == base
  {
    var extracted := ExtractMetrics(bloodReport);
    if extracted.Err? {
      return ErrorPrefix + extracted.message;
    }
    var metrics := extracted.value;
    var recommendations: seq<string> := [];
    if activityLevel == Some("low") {
      recommendations := recommendations + [Walks];
    } else {
      recommendations := recommendations + [Cardio];
    }
    if Get(metrics, "hemoglobin") < 12.0 {
      recommendations := recommendations + [IronBoosting];
    }
    assert recommendations == Advice(activityLevel, metrics);
    var baseResponse := Join([Header] + recommendations + ["\n" + Footer], "\n");
    assert baseResponse == Frame(Header, Advice(activityLevel, metrics), Footer);
    if Truthy(query) {
      var qResponse := ask(metrics, query.value);
      match qResponse
      case Answer(content) =>
        return baseResponse + "\n\nQUESTION ANSWER:\n" + content;
      case Raised(message) =>
        return ErrorPrefix + message;
    }
    return baseResponse;
  }
}
