# Browser-cache server of the Qwen browser assistant

The server behind the browser extension answers POSTs to `/endpoint`. It keeps three
JSON-lines files:

- the browser cache, with one record per captured page or PDF, keyed by `url`;
- the popup-url file, with one `{'url': ...}` line;
- the figure-address file, with one `{'address': ...}` line.

This project models four things:

- the request dispatch;
- the capture pipeline `cache_data`: a pending record, then parsing, title extraction and a replacing commit;
- the checkbox toggle;
- the two single-line writers and the path helpers used to find a local PDF.

Layout:

- `records.dfy` (module `Records`) holds the record, the cache file taken as a sequence of records, and the three store operations:
  - delete by url (`WithoutUrl`);
  - replace by url (`Replaced`);
  - toggle (`Toggled`).
  Each operation has an imperative loop (`KeepOtherUrls`, `ToggleLines`) proved equal to it.
- `paths.dfy` (module `Paths`) holds `is_local_path` and `sanitize_chrome_file_path`. The file system is only its existence test.
- `capture.dfy` (module `CapturePipeline`) holds `cache_data` as a function of the old file, the request and an environment `Env`. The environment supplies:
  - the parsers;
  - the title extractor;
  - url decoding;
  - the date;
  - the existence test.
  The function returns how the capture ends (`Cached`, `Failed`, or `Raised` for an exception) and every whole-file content written to the cache file, in order.
- `server.dfy` (module `Server`) holds the dispatch table, plus a class `CacheFiles` whose fields are the three files and whose methods follow the Python handlers step by step, in the same order (the pending record is appended before the PDF path is resolved and parsed). Each method is proved to produce exactly the state and answer of its specification function.

A missing file is `None`:

- appending or rewriting creates it;
- reading a missing file yields no lines.

Three behaviours of the code may surprise a reader:

1. A payload that is neither a PDF url nor non-empty HTML is still committed, with an empty title and its content as sent.
2. If the HTML parser raises, the handler keeps going with the content as sent. When that content is text, the title lookup raises and the pending record stays in the file. When the browser sent a chunk list, the title comes from its own first chunk and the capture commits.
3. Deleting or replacing when the cache file is missing creates the file.

A capture that raises leaves its pending record in the file. If the file already held a committed record of the same url, that url now has two records. So the one-record-per-url shape of the cache is kept only by captures that return `Cached`.

## Model

| member | source | states |
|---|---|---|
| Records.Lines | qwen_server/main.py:148-149 | the lines a reader sees (here and at lines 184-185): the file's records, or no lines when the file is absent |
| Records.WithoutUrl | qwen_server/main.py:147-154 | the result holds no record of the url, only records of the input, and every input record of another url |
| Records.KeptIndicesExact | qwen_server/main.py:149-151 | the kept positions ascend, lie inside the file, and are exactly the lines whose url differs |
| Records.WithoutUrlKeepsOrder | qwen_server/main.py:149-151 | the k-th surviving line is the input line at the k-th kept position, so the order of the other records is preserved |
| Records.WithoutUrlAppend | qwen_server/main.py:149-151 | deleting a url from a concatenation deletes it from each part |
| Records.WithoutAbsentUrl | qwen_server/main.py:147-154 | deleting a url no record has leaves the file unchanged |
| Records.WithoutUrlIdempotent | qwen_server/main.py:147-154 | deleting the same url twice is deleting it once |
| Records.WithoutUrlKeepsUnique | qwen_server/main.py:147-154 | deleting keeps a file free of duplicate urls |
| Records.KeepOtherUrls | qwen_server/main.py:147-151 | the loop builds exactly the lines of the file with another url, in order |
| Records.Replaced | qwen_server/main.py:183-191 | after a commit the new record is last and is the only record of its url |
| Records.ReplacedKeepsOthers | qwen_server/main.py:183-191 | a commit leaves the records of every other url as they were, in order |
| Records.ReplacedIdempotent | qwen_server/main.py:183-191 | committing the same record twice is committing it once |
| Records.ReplacedKeepsUnique | qwen_server/main.py:183-191 | a commit keeps a file free of duplicate urls |
| Records.ReplacedUrls | qwen_server/main.py:183-191 | a commit adds its url to the file's urls and removes none |
| Records.ReplaceAllUrls | qwen_server/main.py:183-191 | any run of commits on a duplicate-free file stays duplicate-free and holds exactly the old urls plus the committed ones |
| Records.Flip | qwen_server/main.py:202-206 | one line after the toggle: `checked` negated when the url is the key, the record unchanged otherwise |
| Records.Toggled | qwen_server/main.py:200-207 | same length; `checked` is negated exactly on the lines whose url is the key; every other field is unchanged |
| Records.ToggledTwice | qwen_server/main.py:200-211 | toggling the same key twice restores the file |
| Records.ToggledKeepsUnique | qwen_server/main.py:200-211 | toggling keeps a file free of duplicate urls |
| Records.ToggleLines | qwen_server/main.py:200-207 | the loop builds exactly the toggled file |
| Paths.IsLocalPath | qwen_server/main.py:75-79 | true exactly when the url starts with `file://` |
| Paths.LowerAscii | qwen_server/main.py:109 | an upper-case ASCII letter becomes its own lower case (code point plus 32); every other character is kept |
| Paths.IsDrivePath | qwen_server/main.py:108 | the regex `^[A-Za-z]:/`: an ASCII letter, a colon and a slash at the start |
| Paths.MountPath | qwen_server/main.py:108-109 | `X:/rest` becomes `/mnt/x/rest`, with the drive letter lowered and the rest kept |
| Paths.MountPathInjective | qwen_server/main.py:108-109 | two drive paths share a mount exactly when their letters agree up to case and their rests agree |
| Paths.StripLeadingSlash | qwen_server/main.py:101-103 | one leading `/` is dropped; any other path is kept |
| Paths.Backslashed | qwen_server/main.py:114 | same length; every `/` becomes `\`, every other character stays; no `/` remains |
| Paths.Candidates | qwen_server/main.py:101-116 | the paths the sanitizer tries, in order: the path, the path without one leading `/`, its WSL mount when it is a drive path, and its backslashed form |
| Paths.FirstExisting | qwen_server/main.py:95-118 | returns nothing exactly when no candidate exists; otherwise it returns an existing candidate with none before it existing |
| Paths.SanitizeChromeFilePath | qwen_server/main.py:95-118 | an existing path is returned as it is; any other result is a path that exists or the input itself |
| Paths.SanitizeIsFirstExisting | qwen_server/main.py:95-118 | the result is the first existing path among the input, the input without its leading slash, the WSL mount (for a drive path) and the backslashed form; the input itself when none exists |
| Paths.SanitizeExistingPath | qwen_server/main.py:97-98 | a path valid on this system comes back unchanged |
| Paths.SanitizeToMount | qwen_server/main.py:100-111 | a `/`-prefixed drive path whose own form and unslashed form do not exist but whose WSL mount does is sanitized to that mount |
| Paths.SanitizeWslExample | qwen_server/main.py:107-111 | `/C:/Users/x/f.pdf`, when only its WSL mount exists, becomes `/mnt/c/Users/x/f.pdf` |
| CapturePipeline.PendingDropped | qwen_server/main.py:128-131 | deleting the url removes the pending record and nothing else |
| CapturePipeline.PendingIsTransparent | qwen_server/main.py:128-131 | the pending record vanishes in any later delete or commit of its url |
| CapturePipeline.PdfSuffixExact | qwen_server/main.py:124 | the PDF branch is taken exactly when the url ends in `.pdf` or `.PDF` |
| CapturePipeline.CaptureShape | qwen_server/main.py:121-194 | a capture either commits a checked record of its url dated today (directly, or after the pending write), or fails after deleting its url, or raises after the pending write |
| CapturePipeline.CachedCommit | qwen_server/main.py:180-194 | a capture that returns `Cached` leaves the old file with its url replaced by one checked record dated today |
| CapturePipeline.CaptureTouchesOnlyItsUrl | qwen_server/main.py:121-194 | every write of a capture, the last included, keeps the records of all other urls exactly as they were |
| CapturePipeline.CapturePdfKeepsOthers | qwen_server/main.py:124-165 | the PDF branch writes at least once, and each of its writes keeps the records of other urls |
| CapturePipeline.PdfWritesKeepOthers | qwen_server/main.py:142-165 | for any parser result, the pending append, the delete and the commit each keep the records of other urls |
| CapturePipeline.CaptureHtmlKeepsOthers | qwen_server/main.py:166-191 | the HTML branch writes at least once, and each of its writes keeps the records of other urls |
| CapturePipeline.CaptureOtherKeepsOthers | qwen_server/main.py:180-191 | the direct commit writes once and keeps the records of other urls |
| CapturePipeline.CaptureFileKeepsOthers | qwen_server/main.py:121-194 | the file a capture leaves behind holds the records of other urls exactly as before |
| CapturePipeline.CapturePdfWritesPending | qwen_server/main.py:124-131 | a PDF capture first appends one unchecked pending record after the existing lines |
| CapturePipeline.CapturePdfFailure | qwen_server/main.py:142-155 | if the PDF parser raises, the capture returns `failed` and the file keeps every record except those of the url |
| CapturePipeline.CapturePdfSuccess | qwen_server/main.py:157-165 | a parsed PDF with at least one page and a known prompt language is committed as a `pdf` record titled from its first page |
| CapturePipeline.CapturePdfRaises | qwen_server/main.py:161-165 | no pages, or a prompt language other than `CN`/`EN`, raises and leaves the pending record in the file |
| CapturePipeline.CaptureHtmlParseFailure | qwen_server/main.py:172-178 | if the HTML parser raises, the title lookup on the raw text raises and leaves only the pending write |
| CapturePipeline.CaptureHtmlSuccess | qwen_server/main.py:166-191 | a parsed HTML page is committed after the pending write, with the parsed chunks as content and the first chunk's title |
| CapturePipeline.CaptureHtmlSentChunks | qwen_server/main.py:172-191 | a non-empty chunk list sent as `html` whose parse raises is committed as sent, titled from its own first chunk |
| CapturePipeline.CaptureOtherPayload | qwen_server/main.py:166-191 | a payload neither PDF nor non-empty HTML writes no pending record and is committed once, with an empty title |
| CapturePipeline.CaptureIgnoresPdfParser | qwen_server/main.py:124-166 | outside the PDF branch the PDF parser has no effect |
| CapturePipeline.CaptureCommits | qwen_server/main.py:180-194 | after `Cached` the file holds exactly one record of the url, last, checked and dated today, and no duplicate url is introduced |
| CapturePipeline.CapturePdfIndependent | qwen_server/main.py:124-165 | the PDF branch's outcome and committed record do not depend on the existing lines |
| CapturePipeline.CaptureHtmlIndependent | qwen_server/main.py:166-178 | the HTML branch's outcome and committed record do not depend on the existing lines |
| CapturePipeline.CaptureIndependentOfFile | qwen_server/main.py:121-194 | the outcome of a capture and the record it commits do not depend on the file's contents |
| CapturePipeline.CaptureDependsOnlyOnOthers | qwen_server/main.py:180-191 | two files with the same records of other urls end equal after a committed capture |
| CapturePipeline.CaptureSupersedes | qwen_server/main.py:180-191 | after two captures of one url where the second commits, the file is as if the first had never run |
| CapturePipeline.CaptureOutcomes | qwen_server/main.py:121-194 | `failed` happens only for a PDF url; an exception leaves the file as the pending write made it |
| CapturePipeline.Capture | qwen_server/main.py:121-194 | `cache_data`: the PDF branch for a `.pdf`/`.PDF` url, else the HTML branch for non-empty HTML, else a direct commit of the payload as sent |
| CapturePipeline.CapturePdf | qwen_server/main.py:124-165 | the PDF branch always starts with the pending write, and fails exactly when the parser raises; otherwise it raises (no pages, or no prompt) or commits |
| CapturePipeline.HtmlContent | qwen_server/main.py:172-177 | the content after the HTML parse: the parsed chunks, or the content as sent (text or chunks) when the parser raises |
| CapturePipeline.CaptureHtml | qwen_server/main.py:166-178 | the HTML branch always starts with the pending write and never fails; it commits exactly when the content has a first title, and otherwise raises |
| CapturePipeline.PdfSource | qwen_server/main.py:134-140 | where the PDF is read from: a `file://` url decoded and sanitized, any other url as it is |
| CapturePipeline.TitlePrompt | qwen_server/main.py:161-164 | a title instruction exists exactly for the languages `CN` and `EN` |
| CapturePipeline.FileAfter | qwen_server/main.py:130-191 | the cache file after a run of whole-file writes (the append at lines 130-131, the rewrites at 152-154 and 189-191): the last write, or the file unchanged when there is none |
| CapturePipeline.LastFour | qwen_server/main.py:124 | the last four characters of the url, or the whole url when it is shorter |
| CapturePipeline.IsPdfUrl | qwen_server/main.py:124 | the branch test: the last four characters are `.pdf` or `.PDF` |
| CapturePipeline.Truthy | qwen_server/main.py:167 | Python truth of the content: non-empty text or a non-empty chunk list |
| CapturePipeline.FirstTitle | qwen_server/main.py:178 | the first chunk's title; none (the lookup raises) for text or an empty chunk list |
| CapturePipeline.PendingRecord | qwen_server/main.py:128-129 | the pending record: the url and type, empty time, `raw`, extract and topic, unchecked |
| CapturePipeline.CommittedRecord | qwen_server/main.py:181-182 | the committed record: today's date, the content as `raw`, the extract, empty topic, checked |
| CapturePipeline.CaptureRaisedDuplicates | qwen_server/main.py:128-131 | a capture that raises while the file holds a record of its url leaves the file with a duplicate url |
| Server.Toggle | qwen_server/main.py:197-213 | `change_checkbox_state`: `no file` and no write without a cache file, otherwise `changed` and one rewrite with the key toggled |
| Server.Dispatch | qwen_server/main.py:235-248 | `web_listening`: each task's handler, its answer, the three files afterwards and the cache writes |
| Server.CheckboxKey | qwen_server/main.py:202 | the key is the checkbox id after its first three characters; empty for a shorter id |
| Server.ToggleMissingFile | qwen_server/main.py:198-199 | without a cache file the answer is `no file` and no file is created |
| Server.ToggleExisting | qwen_server/main.py:200-213 | with a cache file the answer is `changed` and one rewrite negates `checked` exactly on the records of the key |
| Server.ToggleTwiceRestores | qwen_server/main.py:197-213 | toggling the same checkbox twice restores the cache file, present or absent |
| Server.DispatchResponses | qwen_server/main.py:235-248 | each task's answer (`caching` whatever the capture does); no answer exactly for an unknown task |
| Server.DispatchPopUrl | qwen_server/main.py:65-72 | after `pop_url` the popup file holds exactly the one url line, the other files unchanged and no cache write |
| Server.DispatchSetAddr | qwen_server/main.py:216-224 | after `set_addr` the address file holds exactly the one address line, the other files unchanged and no cache write |
| Server.DispatchFrames | qwen_server/main.py:227-248 | only the singleton tasks touch the singleton files; only `cache` and `change_checkbox` write the cache file; an unknown task changes nothing |
| Server.CacheFiles.constructor | qwen_server/main.py:232-233 | the handler state starts with the given files and no recorded writes |
| Server.CacheFiles.WriteCache | qwen_server/main.py:152-154 | a `'w'` rewrite replaces the whole file and is recorded |
| Server.CacheFiles.AppendCache | qwen_server/main.py:130-131 | an `'a'` append adds one line, creating the file if absent |
| Server.CacheFiles.RemoveUrl | qwen_server/main.py:147-154 | the file is rewritten without the url's records |
| Server.CacheFiles.ReplaceRecord | qwen_server/main.py:183-191 | the file is rewritten with the url's records replaced by the new one, last |
| Server.CacheFiles.CacheData | qwen_server/main.py:121-194 | the imperative handler ends as the capture function says and performs exactly its writes, in order |
| Server.CacheFiles.ChangeCheckboxState | qwen_server/main.py:197-213 | the imperative handler gives the toggle's answer and performs exactly its writes |
| Server.CacheFiles.UpdatePopUrl | qwen_server/main.py:65-72 | the popup-url file holds exactly the one url line; the answer is `Update URL` |
| Server.CacheFiles.UpdateAddrForFigure | qwen_server/main.py:216-224 | the address file holds exactly the one address line; the answer is `Update Address` |
| Server.CacheFiles.WebListening | qwen_server/main.py:227-248 | the handler's answer, the files afterwards and the cache writes are those of the dispatch table |

## Left out

- HTTP and the framework: FastAPI, CORS, the static mount and JSON request decoding. A request is already a `Request` value. Every key a handler reads is present, so a missing key (`KeyError`) is not modelled.
- Command-line arguments and the choice of language model. The prompt language is `Env.promptLan`.
- The language-model call `get_title`. It is `Env.getTitle`, a total function. In the source a `get_title` call that raises would leave the pending record in the file, as `CapturePdfRaises` describes for the other exceptions; the model does not capture that case.
- `download_pdf`, which is never called by the modelled handlers.
- `parse_pdf_pypdf` and `parse_html_bs`. They are the functions `Env.parsePdf` and `Env.parseHtml`, which either return chunks or raise. Each chunk keeps only its `page_content` and `metadata['title']`. Writing the temporary HTML file is folded into `Env.parseHtml`.
- `urlparse`/`unquote` is `Env.decodePath`. The sanitizer's `os.path.exists` calls (main.py:97, 104, 110, 115) are `Env.onDisk`, read once per call with no changes in between. The cache-file existence checks (main.py:148, 184, 198) are not `Env.onDisk`: they are whether the modelled file is `Some`.
- Dates and timing: `datetime.date.today()` is `Env.today`. The parse timing and `print` are not modelled.
- `multiprocessing`: a capture runs in a detached worker while the endpoint answers `caching` at once. The model runs the capture to completion before the next request, so interleaving with other requests is not captured.
- JSON-lines serialisation: a file is its sequence of records, and the `Record` schema's `to_dict` is the identity. The `Record` schema (`qwen_agent.schema`) is not part of this model. Its constructor is assumed to accept any content as `raw`, including the text a direct commit (main.py:181) passes. If the schema required `raw` to be a list, a text payload on that path would raise instead of committing, and `CaptureOtherPayload` would not hold.
- The configuration module. The file names are the fields of `CacheFiles`.
