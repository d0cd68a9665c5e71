# Blood-test report tools

This project models the three tools of a blood-test analysis assistant in `tools.py`:

- **The report reader** (`BloodTestReportTool._run`) goes through the pages of a PDF.
  - For each page whose extracted text is non-empty, it normalises the text:
    - every run of whitespace becomes one space;
    - the ends are stripped;
    - a space is put between a lower-case letter and the upper-case letter right after it.
  - It appends each normalised page followed by a blank line.
  - If the report is blank, it answers with an error string.
  - When a question is given, it appends a language model's answer to the report.
- **The nutrition composer** (`NutritionTool._run`, `_extract_metrics`) reads glucose, HDL and LDL from the report text.
  - It searches for each with a case-insensitive `Label\s*(\d+)` pattern and converts the capture with `float()`.
  - It applies two threshold rules, plus a fallback line when neither fires.
  - It frames the lines with a header and a footer.
  - It optionally appends a language model's answer to a question.
- **The exercise composer** (`ExerciseTool._run`, `_extract_metrics`) does the same for hemoglobin and hematocrit.
  - Its patterns are `Label\s*([\d.]+)`.
  - It picks a walking or a cardio line by activity level.
  - It adds an iron line when hemoglobin is missing or below 12.

The model is laid out in these modules:

- `Text`: character classes and `str.join`, shared by all tools.
- `PageText`: page normalisation.
- `BloodTestReportTool`: the report reader.
- `Patterns`: the `re.search` scanner, `float()` and the extraction loop, shared by the two composers.
- `NutritionTool`: the nutrition composer.
- `ExerciseTool`: the exercise composer.

Each part takes the form the source has:

- Normalisation, the pattern search and `float()` are pure functions with lemmas.
- The page loop of the reader, the extraction loop and the three `_run` bodies are methods with loops or step-by-step updates. Each is proved against the function that specifies it.

Modelling choices:

- **Pages.** A PDF is given as the sequence of what text extraction returned for each page. `None` stands for a page that yielded no text.
- **The language model.** The model is a function parameter that returns either the answer's content or the message of the exception it raised.
- **Exceptions.** Every exception a `_run` catches becomes its error prefix followed by the exception's message.

Behaviour of the code worth noting, all of it modelled as written:

- **Missing metrics.** A missing metric reads as 0 (`metrics.get(key, 0)`, `tools.py:96-98` and `tools.py:161`). So a report without HDL gets the healthy-fat line, and a report without hemoglobin gets the iron line. An empty metric set therefore gives the healthy-fat line, not the fallback line.
- **Blank reports.** The report reader does not raise on a blank report (`tools.py:60-61`). Its own `except` (`tools.py:71-72`) turns the `ValueError` into the string `"Error processing PDF: PDF contained no extractable text"`.
- **Whitespace after the label.** `\s*` (`tools.py:123-125`, `tools.py:184-185`) allows zero whitespace between label and number, so "Glucose130" matches.
- **Malformed captures.** A `[\d.]+` capture that `float()` rejects (".", "1.2.3") makes the whole exercise extraction fail (`tools.py:191`). This holds for hematocrit too, although hematocrit never affects the advice. The exercise tool then returns its error string.

## Model

| member | source | states |
|---|---|---|
| PageText.Collapse | tools.py:56 | `re.sub(r'\s+', ' ', text)`: empty exactly for empty input, and starts with a space exactly where the input starts with whitespace; its meaning is given by CollapseBetween, CollapseRun, CollapseAppend, CollapseSinglySpaced and CollapseSqueeze |
| PageText.CollapseSinglySpaced | tools.py:56 | after `re.sub(r'\s+', ' ', ...)` every whitespace character is a plain space and no two whitespace characters are adjacent |
| PageText.CollapseSqueeze | tools.py:56 | collapsing whitespace runs keeps every non-whitespace character, in order |
| PageText.CollapseOfSinglySpaced | tools.py:56 | collapsing leaves a text that is already singly spaced unchanged |
| PageText.CollapseAppend | tools.py:56 | collapsing works piecewise when the cut is not inside a whitespace run: nothing is added or removed at such a cut |
| PageText.CollapseRun | tools.py:56 | a maximal whitespace run at the front becomes exactly one space |
| PageText.CollapseBetween | tools.py:56 | a whitespace run between two non-whitespace characters becomes exactly one space, and the text on either side is collapsed on its own |
| PageText.TrimStart | tools.py:56 | the left half of `.strip()`: no longer than its input and not starting with whitespace; see TrimStartBlank |
| PageText.TrimEnd | tools.py:56 | the right half of `.strip()`: no longer than its input and not ending with whitespace; see TrimEndBlank |
| PageText.Strip | tools.py:56 | `.strip()`; its meaning is given by StripEnds, StripSqueeze and StripEmptyBlank |
| PageText.TrimStartBlank | tools.py:56 | `lstrip` removes a prefix made only of whitespace |
| PageText.TrimEndBlank | tools.py:56 | `rstrip` removes a suffix made only of whitespace |
| PageText.StripEnds | tools.py:56 | `strip()` yields a slice of its input outside which only whitespace lies, and the slice neither begins nor ends with whitespace |
| PageText.StripEmptyBlank | tools.py:60 | `not text.strip()` holds exactly when the text is all whitespace |
| PageText.StripSqueeze | tools.py:56 | stripping keeps every non-whitespace character, in order |
| PageText.SplitCamel | tools.py:57 | `re.sub(r'([a-z])([A-Z])', r'\1 \2', text)`: empty exactly for empty input and keeps the first and last characters; its meaning is given by SplitCamelAtPair, SplitCamelAppend, SplitCamelOfNoCamel and SplitCamelNoCamel |
| PageText.SplitCamelNoCamel | tools.py:57 | after `re.sub(r'([a-z])([A-Z])', r'\1 \2', ...)` no lower-case letter is directly followed by an upper-case one |
| PageText.SplitCamelSinglySpaced | tools.py:57 | the inserted spaces never create two adjacent whitespace characters in a singly spaced text |
| PageText.SplitCamelSqueeze | tools.py:57 | the camel-case split inserts only spaces: removing whitespace before and after gives the same string |
| PageText.SplitCamelAppend | tools.py:57 | the split works piecewise at any cut that does not separate a lower-case letter from a following upper-case one, so no space is inserted there |
| PageText.SplitCamelAtPair | tools.py:57 | a lower-case letter followed by an upper-case one gets one space between them wherever the pair stands |
| PageText.SplitCamelOfSpaced | tools.py:57 | two texts without camel pairs joined by a space are left unchanged |
| PageText.SplitCamelOfNoCamel | tools.py:57 | a text with no lower/upper pair is left unchanged |
| PageText.SplitCamelTidy | tools.py:57 | the camel-case split keeps a singly spaced, stripped text so and removes every camel pair |
| PageText.NormalisePage | tools.py:56-57 | one page's cleaning, collapse then strip then camel split; its meaning is given by NormalisedPageIsTidy, NormalisePageKeepsText, NormaliseSeparatesWords, NormalisePageIdempotent and NormalisePageEmpty |
| PageText.NormalisedPageIsTidy | tools.py:56-57 | a normalised page has no leading, trailing or adjacent whitespace, only plain spaces, and no lower-case letter directly before an upper-case one |
| PageText.NormalisePageKeepsText | tools.py:56-57 | normalisation only deletes or inserts whitespace: the non-whitespace characters are those of the page, in order |
| PageText.NormalisePageIdempotent | tools.py:56-57 | normalising a normalised page changes nothing |
| PageText.NormaliseSeparatesWords | tools.py:56-57 | two tidy, non-empty texts separated by any whitespace run normalise to the two texts joined by exactly one space |
| PageText.NormalisedPageBlank | tools.py:56-57 | a normalised page is blank exactly when it is empty |
| PageText.NormalisePageEmpty | tools.py:55-57 | a page normalises to the empty string exactly when its text is all whitespace |
| BloodTestReportTool.Texts | tools.py:53-55 | the page texts that reach normalisation are at most one per page and none is empty |
| BloodTestReportTool.TextsSnoc | tools.py:53-55 | appending a page appends its text to the page texts when extraction returned non-empty text, and nothing otherwise, so the texts keep page order |
| BloodTestReportTool.Report | tools.py:51-58 | `full_report` after the page loop; its meaning is given by ReportSnoc, ReportBlank and NoTextBlank |
| BloodTestReportTool.Piece | tools.py:55-58 | what one page adds to `full_report`; see ReportSnoc |
| BloodTestReportTool.Prompt | tools.py:64-66 | the prompt sent to the language model with the report and the question; `Run`'s contract passes exactly this string |
| BloodTestReportTool.ReportSnoc | tools.py:53-58 | appending a page to the PDF appends to the report that page's normalised text and a blank line, or nothing when the page yields no text |
| BloodTestReportTool.BlocksSqueeze | tools.py:58 | the concatenated report is blank exactly when every normalised page is |
| BloodTestReportTool.ReportBlank | tools.py:60-61 | the report is blank, and the no-text error is returned, exactly when every non-empty page text is all whitespace |
| BloodTestReportTool.NoTextBlank | tools.py:53-61 | a PDF none of whose pages yields text gives an empty report |
| BloodTestReportTool.Run | tools.py:50-72 | the page loop builds the report page by page; a blank report gives the no-text error string; without a question the report itself is returned; with one, the report and the model's answer are returned, or the error prefix and the model's exception message |
| Text.Truthy | tools.py:63 | `if query:` is false for a missing or empty question; the three `Run` contracts branch on it |
| Text.Join | tools.py:103-107 | `"\n".join(...)`; see JoinBetween and Frame |
| Text.FoldSameLetter | tools.py:129 | folding case identifies two characters exactly when they are equal or the same ASCII letter in the other case |
| Text.SqueezeBlank | tools.py:60 | a text is blank (`not text.strip()`) exactly when removing its whitespace leaves nothing |
| Text.Frame | tools.py:103-107 | `"\n".join([header, *lines, "\n" + footer])` is the header, each line on a new line, an empty line and the footer |
| Text.JoinBetween | tools.py:164-168 | `"\n".join` of a header, middle lines and a last part puts every middle line after its own line break |
| Patterns.LabelAtIgnoresCase | tools.py:129 | with IGNORECASE the label occurs at a position exactly when each character there is the label's character or the same ASCII letter in the other case |
| Patterns.SkipSpacesSpan | tools.py:123 | the greedy `\s*` passes over whitespace only and stops at the end or at a non-whitespace character |
| Patterns.NumberEndSpan | tools.py:184 | the greedy `\d+` / `[\d.]+` run passes over number characters only and stops at the end or at a character outside the class |
| Patterns.MatchAt | tools.py:123-125 | a match of the pattern anchored at one position; a capture is a non-empty run of number characters; see MatchAtIsRegexMatch and MatchAtShape |
| Patterns.FirstMatchFrom | tools.py:129 | `re.search` from a position on; a capture is a non-empty run of number characters; see FirstMatchFromNone and FirstMatchFromLeftmost |
| Patterns.FirstMatch | tools.py:189 | `re.search(pattern, report_text, re.IGNORECASE).group(1)`, or nothing; see FirstMatchPresent and FirstMatchFromLeftmost |
| Patterns.MatchAtIsRegexMatch | tools.py:123-125 | the pattern matches at a position exactly when the label is there (ignoring ASCII case) and, after a possibly empty stretch of whitespace, a number character follows |
| Patterns.MatchAtShape | tools.py:184-185 | a match captures the maximal run of number characters after the label and all its whitespace |
| Patterns.FirstMatchFromNone | tools.py:129 | the search finds nothing exactly when the pattern matches at no position |
| Patterns.FirstMatchFromLeftmost | tools.py:189 | a found capture is the one at the leftmost position where the pattern matches |
| Patterns.FirstMatchPresent | tools.py:129-130 | a key is found exactly when its regular expression can match somewhere in the text |
| Patterns.Search | tools.py:129 | the position-by-position scan returns the leftmost match's capture |
| Patterns.ParseFloat | tools.py:191 | `float()` of a captured token: a converted value is never negative; its meaning is given by ParseFloatAccepts, ParseDigits and ParseDecimal |
| Patterns.FloatError | tools.py:191 | `str(e)` of the `ValueError` that `float()` raises for a token; see CollectError and ExtractFails |
| Patterns.ParseDecimal | tools.py:191 | `float()` of a capture with a dot is its whole-part digits plus its fraction digits divided by ten to the number of fraction digits; either part may be empty but not both |
| Patterns.ParseFloatAccepts | tools.py:191 | `float()` accepts a capture exactly when it consists of digits and dots, holds a digit and holds at most one dot |
| Patterns.ParseDigits | tools.py:131 | a capture of digits alone converts to the whole number it denotes |
| Patterns.Extract | tools.py:119-133 | the result of `_extract_metrics` for a pattern table: the metric map, or the error of the first rejected capture; its meaning is given by ExtractKeys, ExtractFails and DigitsExtract |
| Patterns.Get | tools.py:96-98 | `metrics.get(key, 0)`; NutritionTool.Advice and ExerciseTool.Advice state the rules in terms of presence and value |
| Patterns.CollectKeys | tools.py:128-131 | with distinct keys, a loop that succeeds holds exactly the keys whose capture converted, each with its value, and no other key |
| Patterns.CollectOk | tools.py:128-131 | the loop succeeds exactly when no capture is rejected |
| Patterns.CollectError | tools.py:188-191 | a failed loop carries `float()`'s message for the first rejected capture in table order |
| Patterns.CollectStops | tools.py:188-191 | once a capture is rejected, the later entries do not change the outcome |
| Patterns.ExtractKeys | tools.py:128-133 | with distinct keys, a successful extraction holds exactly the keys whose pattern was found, each mapped to `float()` of its first capture; no default is stored |
| Patterns.ExtractFails | tools.py:188-191 | extraction fails exactly when some found capture does not convert, with the message of the first such entry |
| Patterns.DigitsConvert | tools.py:123-125 | a capture of a digits-only pattern always converts |
| Patterns.DigitsExtract | tools.py:123-131 | with distinct keys and digits-only patterns extraction never fails, and each found key holds the whole number of its capture |
| Patterns.ExtractMetrics | tools.py:119-133 | the loop over the pattern table computes the extraction result, including the error of the first rejected capture |
| NutritionTool.TableFits | tools.py:122-126 | the nutrition table has distinct keys and digits-only patterns |
| NutritionTool.ExtractMetrics | tools.py:119-133 | extraction never fails; its keys lie among glucose, HDL and LDL; each is present exactly when its pattern matches and holds its capture's whole number |
| NutritionTool.Advice | tools.py:96-101 | the sugar line appears exactly when glucose is present and above 100; the healthy-fat line exactly when HDL is absent or below 40; the fallback exactly when neither does; the lines come in rule order |
| NutritionTool.LdlIgnored | tools.py:96-101 | LDL, whatever its value or absence, never changes the advice |
| NutritionTool.NoMetricsAdvice | tools.py:96-101 | an empty metric set gives the healthy-fat line alone, not the fallback |
| NutritionTool.NoGlucoseNoHdl | tools.py:96-107 | without glucose and HDL the framed response is exactly the header, the healthy-fat line, a blank line and the footer |
| NutritionTool.GlucoseExample | tools.py:123-131 | in "Glucose 130" the glucose pattern captures "130", which converts to 130.0 |
| NutritionTool.HighGlucoseLowHdl | tools.py:96-101 | glucose 130 and HDL 30 give the sugar and the healthy-fat lines and no fallback |
| NutritionTool.Run | tools.py:92-118 | the response is the framed advice for the extracted metrics; with a question, the model's answer is appended, or its exception message follows the error prefix |
| ExerciseTool.TableKeysDistinct | tools.py:183-186 | the exercise table has distinct keys |
| ExerciseTool.ExtractMetrics | tools.py:180-193 | extraction succeeds exactly when both found captures convert; then each key is present exactly when its pattern matches and holds `float()` of its capture; otherwise the error is hemoglobin's if its capture fails, else hematocrit's |
| ExerciseTool.Advice | tools.py:157-162 | the first line is walks exactly for activity level "low" and cardio otherwise; the iron line follows exactly when hemoglobin is absent or below 12 |
| ExerciseTool.HematocritIgnored | tools.py:157-162 | hematocrit, whatever its value or absence, never changes the advice |
| ExerciseTool.NoHemoglobinAdvice | tools.py:161-162 | a report without hemoglobin gets the iron line |
| ExerciseTool.LowHemoglobinCapture | tools.py:184 | in "Hemoglobin 11.5" the hemoglobin pattern captures "11.5" |
| ExerciseTool.LowHemoglobinValue | tools.py:161-162 | the capture "11.5" converts to 11.5, and with that value the iron line follows the cardio line |
| ExerciseTool.MalformedCaptures | tools.py:184-191 | `float()` rejects the captures "." and "1.2.3" that `[\d.]+` lets through |
| ExerciseTool.MalformedHemoglobin | tools.py:184-191 | a hemoglobin capture that does not convert makes the extraction fail with `float()`'s message for it |
| ExerciseTool.LoneDotReport | tools.py:184-191 | in "Hemoglobin ." the pattern captures the lone dot and the extraction fails |
| ExerciseTool.MalformedHematocrit | tools.py:185-191 | a hematocrit capture that does not convert also makes the extraction fail, although hematocrit never affects the advice |
| ExerciseTool.Run | tools.py:153-179 | the response is the framed advice for the extracted metrics; a failed extraction gives the error prefix and `float()`'s message; with a question, the model's answer is appended, or its exception message follows the error prefix |

## Left out

- Opening the PDF and extracting each page's text (pdfplumber) are not modelled. Neither are their failures (missing file, corrupt PDF). A PDF is given as the list of what extraction returned per page.
- The language-model client, its construction and the network call are not modelled. The model is a function parameter returning an answer or an exception message.
- The composers' prompt is not modelled. It embeds Python's `repr` of the metric dictionary, so the model is given the metric map and the question directly. The report reader's prompt is modelled exactly.
- `\s`, `\d` and IGNORECASE are modelled for ASCII text only. Python also treats non-ASCII whitespace and digits as matching, and case-folds some non-ASCII letters, such as the long s matching `s`.
- Patterns.ParseFloat: values are exact reals, so the IEEE double rounding `float()` performs is not modelled.
- Three exception messages are modelled: `float()`'s message, the language model's message, and the report reader's own "PDF contained no extractable text". The messages of pdfplumber's exceptions (a missing or corrupt file) are not, since opening the PDF is not modelled.
- The unused `focus_areas` parameter of the nutrition tool is not modelled.
- The default activity level "moderate" is not modelled: the caller always passes an activity level. Any value other than "low", including none, selects cardio.
- The web search tool, environment loading, the pydantic input schemas and the module-level tool instances are not part of this model.
- The agent and task definitions (`agents.py`, `tasks.py`) are not part of this model.
