/** The blood-test report reader: normalises each page of text the PDF yields,
    concatenates the pages, and optionally appends a language-model answer to a
    question about the report. The PDF is given as the sequence of what text
    extraction returned for each page (`None` where it returned nothing). */
module BloodTestReportTool {
  import opened Text
  import opened PageText

  const ErrorPrefix: string := "Error processing PDF: "
  const NoTextMessage: string := "PDF contained no extractable text"

  /** The page texts that count: those extraction returned and that are non-empty. */
  function Texts(pages: seq<Option<string>>): (ts: seq<string>)
    ensures |ts| <= |pages|
    ensures forall i :: 0 <= i < |ts| ==> ts[i] != ""
  {
    if pages == [] then []
    else
      var rest := Texts(pages[1..]);
      match pages[0]
      case Some(t) => if t != "" then [t] + rest else rest
      case None => rest
  }

  /** Each text normalised. */
  function Cleaned(ts: seq<string>): (ns: seq<string>)
    ensures |ns| == |ts|
  {
    seq(|ts|, i requires 0 <= i < |ts| => NormalisePage(ts[i]))
  }

  /** Each block followed by a blank line, in order. */
  function Blocks(ns: seq<string>): string
  {
    if ns == [] then "" else ns[0] + "\n\n" + Blocks(ns[1..])
  }

  /** The assembled report: the normalised non-empty page texts, in page order,
      each followed by a blank line. */
  function Report(pages: seq<Option<string>>): string
  {
    Blocks(Cleaned(Texts(pages)))
  }

  /** What one page adds to the report: nothing when extraction gave no text,
      otherwise the normalised text and a blank line. */
  function Piece(page: Option<string>): string
  {
    if page.Some? && page.value != "" then NormalisePage(page.value) + "\n\n" else ""
  }

  predicate AllBlank(ts: seq<string>)
  {
    forall i :: 0 <= i < |ts| ==> IsBlank(ts[i])
  }

  /** The prompt sent to the language model. */
  function Prompt(report: string, query: string): string
  {
    "Blood Test Report:\n" + report + "\n\nQuestion: " + query + "\n\nAnswer:"
  }

  lemma {:induction false} TextsSnoc(pages: seq<Option<string>>, p: Option<string>)
    ensures Texts(pages + [p]) == Texts(pages) + (if p.Some? && p.value != "" then [p.value] else [])
  {
    if pages == [] {
      assert Texts([p][1..]) == [];
    } else {
      assert (pages + [p])[1..] == pages[1..] + [p];
      TextsSnoc(pages[1..], p);
    }
  }

  lemma {:induction false} CleanedAppend(a: seq<string>, b: seq<string>)
    ensures Cleaned(a + b) == Cleaned(a) + Cleaned(b)
  {
    var l, r := Cleaned(a + b), Cleaned(a) + Cleaned(b);
    forall i | 0 <= i < |a| + |b| ensures l[i] == r[i] {
      if i < |a| {
        assert (a + b)[i] == a[i];
      } else {
        assert (a + b)[i] == b[i - |a|];
      }
    }
  }

  lemma {:induction false} BlocksAppend(a: seq<string>, b: seq<string>)
    ensures Blocks(a + b) == Blocks(a) + Blocks(b)
  {
    if a == [] {
      assert a + b == b;
    } else {
      assert (a + b)[1..] == a[1..] + b;
      BlocksAppend(a[1..], b);
    }
  }

  lemma {:induction false} BlocksSnoc(ns: seq<string>, n: string)
    ensures Blocks(ns + [n]) == Blocks(ns) + n + "\n\n"
  {
    BlocksAppend(ns, [n]);
    assert Blocks([n]) == n + "\n\n" + Blocks([]);
  }

  lemma {:induction false} BlocksOfSnoc(ts: seq<string>, t: string)
    ensures Blocks(Cleaned(ts + [t])) == Blocks(Cleaned(ts)) + NormalisePage(t) + "\n\n"
  {
    CleanedAppend(ts, [t]);
    assert Cleaned([t]) == [NormalisePage(t)];
    BlocksSnoc(Cleaned(ts), NormalisePage(t));
  }

  /** Appending one page to the PDF appends that page's piece to the report. */
  lemma {:induction false} ReportSnoc(pages: seq<Option<string>>, p: Option<string>)
    ensures Report(pages + [p]) == Report(pages) + Piece(p)
  {
    TextsSnoc(pages, p);
    if p.Some? && p.value != "" {
      assert Texts(pages + [p]) == Texts(pages) + [p.value];
      BlocksOfSnoc(Texts(pages), p.value);
    } else {
      assert Texts(pages + [p]) == Texts(pages);
    }
  }

  lemma {:induction false} BlocksSqueeze(ns: seq<string>)
    ensures Squeeze(Blocks(ns)) == [] <==> forall i :: 0 <= i < |ns| ==> Squeeze(ns[i]) == []
  {
    if ns != [] {
      BlocksSqueeze(ns[1..]);
      SqueezeAppend(ns[0] + "\n\n", Blocks(ns[1..]));
      SqueezeAppend(ns[0], "\n\n");
      assert Squeeze("\n\n") == [];
      if forall i :: 0 <= i < |ns| - 1 ==> Squeeze(ns[1..][i]) == [] {
        forall i | 0 < i < |ns| ensures Squeeze(ns[i]) == [] {
          assert ns[i] == ns[1..][i - 1];
        }
      }
    }
  }

  lemma {:induction false} CleanedSqueeze(ts: seq<string>)
    ensures (forall i :: 0 <= i < |ts| ==> Squeeze(Cleaned(ts)[i]) == []) <==> AllBlank(ts)
  {
    forall i | 0 <= i < |ts|
      ensures Squeeze(Cleaned(ts)[i]) == [] <==> IsBlank(ts[i])
    {
      NormalisePageKeepsText(ts[i]);
      SqueezeBlank(ts[i]);
    }
  }

  /** The report is blank exactly when every non-empty page text is all whitespace. */
  lemma {:induction false} ReportBlank(pages: seq<Option<string>>)
    ensures IsBlank(Report(pages)) <==> AllBlank(Texts(pages))
  {
    BlocksSqueeze(Cleaned(Texts(pages)));
    CleanedSqueeze(Texts(pages));
    SqueezeBlank(Report(pages));
  }

  /** A PDF of which no page yields text gives a blank report. */
  lemma {:induction false} NoTextBlank(pages: seq<Option<string>>)
    requires forall i :: 0 <= i < |pages| ==> pages[i] == None || pages[i] == Some("")
    ensures Report(pages) == ""
  {
    if pages != [] {
      NoTextBlank(pages[1..]);
    }
  }

  /** `BloodTestReportTool._run`: assembles the report page by page, then either
      reports that there was no text, returns the report, or returns the report
      with the model's answer to the question. Every failure becomes a string
      that starts with the error prefix; nothing is raised. */
  method Run(pages: seq<Option<string>>, query: Option<string>, ask: string -> Reply) returns (out: string)
    ensures var report := Report(pages);
      && (IsBlank(report) ==> out == ErrorPrefix + NoTextMessage)
      && (!IsBlank(report) && !Truthy(query) ==> out == report)
      && (!IsBlank(report) && Truthy(query) ==>
            match ask(Prompt(report, query.value))
            case Answer(content) => out == "REPORT:\n" + report + "\n\nQUERY RESPONSE:\n" + content
            case Raised(message) => out == ErrorPrefix + message)
  {
    var fullReport := "";
    for i := 0 to |pages|
      invariant fullReport == Report(pages[..i])
    {
      ReportSnoc(pages[..i], pages[i]);
      assert pages[..i + 1] == pages[..i] + [pages[i]];
      match pages[i]
      case Some(text) =>
        if text != "" {
          var cleaned := NormalisePage(text);
          fullReport := fullReport + cleaned + "\n\n";
        }
      case None =>
    }
    assert pages[..|pages|] == pages;
    StripEmptyBlank(fullReport);
    if Strip(fullReport) == "" {
      return ErrorPrefix + NoTextMessage;
    }
    if Truthy(query) {
      var response := ask(Prompt(fullReport, query.value));
      match response
      case Answer(content) =>
        return "REPORT:\n" + fullReport + "\n\nQUERY RESPONSE:\n" + content;
      case Raised(message) =>
        return ErrorPrefix + message;
    }
    return fullReport;
  }
}
