# Evidence summarizer core, in Dafny

This project models the text-processing core of the evidence summarizer
(`summarizer/pipeline.py`) and proves properties about it. That core is the
`summarize` entry point together with the pieces it is built from:

- **Extraction** (`_extract_text`) turns a path, a byte buffer or a readable
  stream into plain text. PDF documents go to page-by-page extraction;
  everything else goes to a UTF-8 decoder.
- **Chunking** (`_chunk_text`) cuts the text into slices of at most 6000
  characters, at fixed offsets.
- **Numbering calls** send each chunk to the chat model, which numbers its
  sentences.
- **Summarising call** sends the numbered chunks, joined by newlines, in one
  more call. That call asks for bullet points citing sentence ids.
- **Parsing** (`_parse_bullets` and `_bullet_re`) reads the reply line by
  line into `{bullet, evidence_ids}` records and skips lines that do not
  match.

The backend factory `choose_backend` and the `chat` method of the two
backends in `summarizer/backends.py` are modelled as far as `summarize`
relies on them:
- the model name each backend sends;
- the refusal of an unknown engine;
- the `strip()` applied to every reply.

Modules, one per file:

| file | module | what it holds |
|---|---|---|
| errors.dfy | `Errors` | `Option`, `Result` and the errors the pipeline raises |
| strings.dfy | `Strings` | `str.isspace`, `strip`, `lower`, `splitlines`, `join`, `rfind` |
| chunker.dfy | `Chunker` | `_chunk_text` |
| normalizer.dfy | `Normalizer` | `_extract_text` and `_pdf_bytes_to_text` |
| bullets.dfy | `BulletParser` | `_bullet_re`, `_parse_bullets` |
| backends.dfy | `Backends` | `choose_backend`, `chat` |
| pipeline.dfy | `Pipeline` | `summarize` |

How the source's forms are modelled:
- **Regular expression.** The regex `^[•\-*]\s*(.+?)\s*\|\s*([\d,\s]+)$` is
  encoded as a predicate over the positions of its parts (`IsMatch`).
  `FindMatch` computes the match Python's backtracking matcher reports. It is
  proved to be a match, and the first one the matcher tries.
- **Loops.** The parser loop and the orchestration loop are methods
  (`ParseBullets`, `Summarize`). Each is proved equal to a functional
  specification (`Parse`, `SummarizeSpec`), and the properties are proved
  about those.
- **Environment.** The file system, the UTF-8 decoder and pdfplumber are
  function-valued fields of an `Io` value.
- **Chat endpoint.** The chat endpoint is a function `Service`. It maps the
  requests sent so far and a new request to the reply content, or to `None`
  when the client raises. The history lets a stub that answers each call
  differently be expressed; the pipeline itself sends one message per call.
- **Prompts.** The two prompt files are the fields of a `Prompts` value.
- **Temperature.** The temperature is an opaque `real` that is passed
  through unchanged.

## Model

| member | source | states |
|---|---|---|
| Chunker.ChunkText | summarizer/pipeline.py:106-107 | `_chunk_text` for any `max_chars`: a zero step fails (Python's `range` raises), a negative step gives no chunks, and a positive step gives `Chunks` |
| Chunker.Chunks | summarizer/pipeline.py:106-107 | the slices at offsets 0, w, 2w, …; the text is empty exactly when there are no chunks |
| Chunker.ConcatChunks | summarizer/pipeline.py:106-107 | concatenating the chunks in order gives the text back |
| Chunker.ChunkLengths | summarizer/pipeline.py:106-107 | every chunk is non-empty and at most `max_chars` long; every chunk but the last is exactly `max_chars` long |
| Chunker.ChunkCount | summarizer/pipeline.py:106-107 | the number of chunks is ⌈len(text) / max_chars⌉, the length of `range(0, len(text), max_chars)` |
| Chunker.ChunkAt | summarizer/pipeline.py:107 | chunk k is exactly `text[k*w : k*w + w]`, the comprehension's slice, and its offset lies inside the text |
| Chunker.SingleChunk | summarizer/pipeline.py:106-107 | a non-empty text no longer than `max_chars` is one chunk, itself |
| Normalizer.ExtractText | summarizer/pipeline.py:46-98 | the dispatch: a path goes to `ReadPath`; bytes starting with `%PDF` go to PDF extraction, other bytes are decoded; a stream goes to PDF extraction when its name ends in `.pdf` in any case or its data starts with `%PDF`, and is decoded otherwise; anything else fails with the type error, and only then |
| Normalizer.PdfToText | summarizer/pipeline.py:57-61 | fails when pdfplumber is missing or cannot open the data, and with no other error; otherwise returns the page texts (`""` for a page without text), joined by newlines in page order |
| Normalizer.ReadPath | summarizer/pipeline.py:67-74 | a `.txt` path is read as text; a `.pdf` path is read as bytes and sent to PDF extraction; a failed read fails with the path; any other suffix fails with that extension; a path never fails with the type error |
| Normalizer.ExtensionIgnoresCase | summarizer/pipeline.py:68-69 | two paths that differ only in the case of their letters have the same lower-cased suffix, so they take the same branch |
| Normalizer.RefusedWithoutReading | summarizer/pipeline.py:67-98 | an unsupported suffix, or a value of no accepted shape, fails whatever the file system, decoder and PDF library do, so nothing is read |
| Normalizer.SignatureOverridesName | summarizer/pipeline.py:80-95 | data starting with `%PDF` goes to PDF extraction, whatever the stream is called |
| Normalizer.StartsWithPdfMagic | summarizer/pipeline.py:82-94 | the clamped slice test `data[:4] == b"%PDF"` holds exactly when the data starts with the four signature bytes; shorter data never passes |
| Normalizer.Suffix | summarizer/pipeline.py:68-69 | `Path.suffix`: empty, or a dot followed by neither dot nor slash, ending the file name and shorter than it |
| Normalizer.NoExtension | summarizer/pipeline.py:67-69 | a file name with no dot strictly inside it (`README`, `.bashrc`, `notes.`) has the empty extension, in any directory |
| Normalizer.ExtensionOfPath | summarizer/pipeline.py:67-69 | a path made of a directory (empty or ending in `/`), a non-empty stem without `/`, a dot and a non-empty extension without dot or slash has that dot and extension, lower-cased, as its extension |
| Normalizer.TextPathIsRead | summarizer/pipeline.py:67-71 | such a path whose extension is `txt` in any case is read as text, and fails with the path when it cannot be read |
| Normalizer.PdfPathIsExtracted | summarizer/pipeline.py:67-73 | such a path whose extension is `pdf` in any case is read as bytes and sent to PDF extraction, and fails with the path when it cannot be read |
| BulletParser.MatchIsSound | summarizer/pipeline.py:114-120 | the decomposition `FindMatch` reports matches the whole stripped line against the regular expression |
| BulletParser.MatchBarIsLast | summarizer/pipeline.py:114 | the bar of any match of the regular expression is the last bar of the line, and only digits, commas and whitespace follow it |
| BulletParser.BarInBulletText | summarizer/pipeline.py:114-126 | a line with two bars, "- a", bar, "b", bar, "1", yields the record whose text is "a", bar, "b" (blanks kept) and whose ids are [1]: earlier bars stay in the bullet text |
| BulletParser.MatchIsFirst | summarizer/pipeline.py:114-120 | whenever the line has a match, `FindMatch` finds one, and it is the first the backtracking matcher tries (greedy `\s*`, lazy group 1) |
| BulletParser.ParseLineIffMatch | summarizer/pipeline.py:119-126 | a line yields a record exactly when its stripped form matches; a record's bullet text is never empty |
| BulletParser.NonBulletLineSkipped | summarizer/pipeline.py:114-122 | a line whose stripped form lacks the leading marker, or lacks a bar followed only by digits, commas and whitespace to its end, contributes no record |
| BulletParser.ParseBullets | summarizer/pipeline.py:117-127 | the loop over the lines returns exactly `Parse(raw)`; the parser is total |
| BulletParser.ParseKeepsLineOrder | summarizer/pipeline.py:118-127 | the k-th record comes from the k-th matching line, records keep line order, no matching line is dropped, and there are never more records than lines |
| BulletParser.PresentKeepsOrder | summarizer/pipeline.py:121-126 | keeping the values of the lines that produced one keeps them all, in order, and nothing else |
| BulletParser.SplitIdsWhole | summarizer/pipeline.py:124 | `re.split(r"[\s,]+", s)` on a string with no comma and no whitespace is the one piece `s` |
| BulletParser.SplitIdsAtRun | summarizer/pipeline.py:124 | a piece without separators, a maximal non-empty run of commas and whitespace, and a rest that is empty or starts with neither split into that piece followed by the pieces of the rest; with `SplitIdsWhole` this fixes the split of every string, with an empty piece after a trailing run |
| BulletParser.SplitIdsPieces | summarizer/pipeline.py:124 | `re.split(r"[\s,]+", ids)`: no piece holds a comma or whitespace, and the pieces in order spell the segment with those removed |
| BulletParser.DecimalRoundTrip | summarizer/pipeline.py:124 | `int(str(n)) == n` for the digit strings of group 2 |
| BulletParser.IdsRoundTrip | summarizer/pipeline.py:124 | ids written out with any run of commas and blanks between them are read back exactly, in order |
| BulletParser.BulletLineRoundTrip | summarizer/pipeline.py:114-126 | a well-formed bullet line (marker, text without newline that neither starts nor ends in a blank, optional blanks, the bar, ids) holds no newline and parses to its text and its ids; the text may itself hold bars |
| BulletParser.BlankBullet | summarizer/pipeline.py:114-125 | a line of a marker, a blank, the bar, a blank and one digit matches: group 1 takes the blank, and the record's text is " " |
| BulletParser.BulletWithoutIds | summarizer/pipeline.py:114-126 | a bullet whose id segment is a lone comma still yields a record, with an empty id list |
| BulletParser.CommaOnlyIds | summarizer/pipeline.py:124 | splitting "," gives two empty pieces, neither of them digits, so no ids |
| BulletParser.ReplyExample | summarizer/pipeline.py:117-127 | a four-line reply with one prose line gives the three bullet records, in order, with their ids |
| BulletParser.ParseSingleLine | summarizer/pipeline.py:119-127 | a reply of one line yields that line's record, if it has one |
| BulletParser.ParseBulletLineReply | summarizer/pipeline.py:117-127 | a reply that is one well-formed bullet line, whose text may hold bars, yields exactly its record |
| BulletParser.SummaryBulletReply | summarizer/pipeline.py:117-127 | the line "- Summary bullet", the bar, "1,2" parses to one record with text "Summary bullet" and ids [1, 2] |
| Strings.Strip | summarizer/pipeline.py:120 | `str.strip()`: the middle of the string, between a whitespace prefix and a whitespace suffix, starting and ending on non-whitespace |
| Strings.JoinSplitLines | summarizer/pipeline.py:119 | joining the lines of a reply with newlines gives it back, less a final newline |
| Strings.SplitLinesJoin | summarizer/pipeline.py:161 | splitting newline-joined lines gives them back when no line holds a newline and the last is not empty |
| Backends.ChooseBackend | summarizer/backends.py:75-84 | "gpt4o" gives the gpt-4o-mini client and "llama" an Ollama client whose model is the one given, or llama3.2 when it is None or empty; any other engine fails with `UnknownBackend` |
| Backends.Chat | summarizer/backends.py:45-51 | a call fails exactly when the client raises; otherwise it returns the first choice's content, stripped, and the result has no whitespace at either end |
| Backends.ChatKeepsTrimmedReply | summarizer/backends.py:63-69 | a reply with no whitespace at either end comes back unchanged |
| Pipeline.Numbering | summarizer/pipeline.py:153-159 | the numbering loop sends at most one request per chunk, the k-th request holds the extract prompt, a blank line and chunk k, and when it succeeds there are exactly as many requests and replies as chunks |
| Pipeline.NumberingAnswers | summarizer/pipeline.py:155-159 | each numbering reply is the service's answer to its own request; when the loop fails, its last request is the one whose call failed |
| Pipeline.NumberingStopsAtFailure | summarizer/pipeline.py:155-159 | once a call fails, no later chunk is sent |
| Pipeline.Summarize | summarizer/pipeline.py:135-169 | the method sends exactly the requests of `SummarizeSpec`, in order, and returns its result |
| Pipeline.UnknownBackendFailsFast | summarizer/pipeline.py:149-150 | an unknown engine fails the run before the source is read and before any call |
| Pipeline.ExtractionFailureMakesNoCalls | summarizer/pipeline.py:150 | a source that cannot be turned into text fails the run with the extraction's error, and no call is made |
| Pipeline.UnsupportedPathMakesNoCalls | summarizer/pipeline.py:149-150 | a path such as `.docx` fails with the unsupported extension and makes no call |
| Pipeline.SameClientForEveryCall | summarizer/pipeline.py:153-167 | every call goes to the chosen backend's model, with the caller's temperature, as one user message |
| Pipeline.SuccessfulRun | summarizer/pipeline.py:153-169 | a run that returns records made ⌈len(text)/6000⌉ + 1 calls: one numbering call per chunk in chunk order, each answered, then one call with the summary prompt, a blank line and the replies joined by newlines; it returns the parse of that call's reply |
| Pipeline.FailedRunStopsAtFailingCall | summarizer/pipeline.py:155-167 | a run that fails after extraction fails with `ChatFailed`; every earlier call was answered, the last call sent is the failing one, and at most one call more than there are chunks is made |
| Pipeline.EmptyTextOneCall | summarizer/pipeline.py:155-167 | an empty document makes no numbering call and one summarising call, over the summary prompt followed by a blank line |
| Pipeline.OneChunkRun | summarizer/pipeline.py:155-169 | a one-chunk text whose two calls are answered sends exactly those two requests and returns the parse of the second reply |
| Pipeline.TwoCallRun | summarizer/pipeline.py:135-169 | the same for a `.txt` path, from the top of `summarize` |
| Pipeline.StubRun | summarizer/pipeline.py:135-169 | a stub that numbers a short text file's sentences and answers with that one bullet line gives two calls and the one record `{bullet: "Summary bullet", evidence_ids: [1, 2]}` |

## Left out

- `_load_prompt` (summarizer/pipeline.py:32-35) reads the prompt files. The two prompts are the fields of a `Prompts` parameter, and a missing prompt file is not modelled.
- The `main` command-line entry point in summarizer/pipeline.py, `scripts/run_cli.py` and `app.py` are argument parsing, stdin reading, JSON printing and UI rendering, with nothing to state. They are not part of this model.
- File reading, UTF-8 decoding with `errors="ignore"` and pdfplumber's page extraction are foreign code. They are functions of the `Io` parameter, and a read or parse that raises gives `None`.
- Building the OpenAI clients (summarizer/backends.py:42-43, 57-61) reads the API key and `OLLAMA_BASE_URL` from the environment. A constructor that raises is not modelled.
- The network call itself is the `Service` parameter. Its failures (network, authentication, rate limit) collapse into one `ChatFailed` error, and a reply whose content is `None` (which would make `.strip()` raise) is not distinguished from a failed call.
- The temperature is a float passed through unchanged. It is an opaque `real`, and the backends' default of 0.2 applies only when none is passed, which `summarize` never does.
- Strings.IsSpace: covers the whitespace of `str.isspace()` for the characters listed, not the whole Unicode database.
- BulletParser.IsDigit: `\d` and `str.isdigit()` are ASCII digits only; other Unicode decimal digits are not modelled.
- Strings.Lower: lower-cases ASCII letters only; Unicode case folding is not modelled.
- Strings.SplitLines: `\n` is the only line boundary; `\r`, `\r\n` and the other boundaries `str.splitlines()` knows are not modelled.
- Normalizer.Suffix: works on the path string with `/` as the only separator; `pathlib` normalisation (trailing slashes, `.`/`..` parts, Windows separators) is not modelled.

## Notes on the parser's behaviour

- The regular expression's group 1 `(.+?)` always holds at least one character, so the `if bullet:` test at summarizer/pipeline.py:125 never drops a matched line. A bullet whose text is only blanks, such as the line `- | 1`, is kept, with the text `" "` (`BulletParser.BlankBullet`, against the regular expression at summarizer/pipeline.py:114).
- A reply of the four lines `- Revenue grew | 1, 2`, `* Costs fell|3`, `not a bullet line` and `• Empty bullet | 4` gives three records: `{bullet: "Revenue grew", evidence_ids: [1, 2]}`, `{bullet: "Costs fell", evidence_ids: [3]}` and `{bullet: "Empty bullet", evidence_ids: [4]}`. Only the third line is skipped (`BulletParser.ReplyExample`).
