/** `cache_data`: capturing a PDF or an HTML page into the browser cache.
    The parsers, the title extraction, url decoding, the clock and the file
    system's existence test are parameters (`Env`). A capture is described by
    how it ends and by every content it writes to the cache file, in order. */
module CapturePipeline {
  import opened Records
  import opened Paths

  /** The JSON body of a POST to `/endpoint` (`kind` is its `type`). Every key a
      handler reads is present. */
  datatype Request = Request(task: string, url: string, kind: string, content: Content,
                             ckid: string, addr: string)

  /** A parser either returns its chunks or raises. */
  datatype ParseOutcome = Parsed(chunks: seq<Chunk>) | ParseError

  /** What a capture consults outside this file. */
  datatype Env = Env(
    today: string,                      // str(datetime.date.today())
    promptLan: string,                  // the prompt language given on the command line
    decodePath: string -> string,       // unquote(urlparse(url).path)
    onDisk: string -> bool,             // os.path.exists
    parsePdf: string -> ParseOutcome,   // parse_pdf_pypdf on the resolved path
    parseHtml: Content -> ParseOutcome, // save_text_to_file, then parse_html_bs
    getTitle: (string, string) -> string) // get_title(text, cacheprompt)

  /** How `cache_data` ends: it returns `'Cached'` or `'failed'`, or an exception
      ends the worker. */
  datatype CacheOutcome = Cached | Failed | Raised

  /** How a capture ends, and the whole-file contents it wrote, in order. */
  datatype CaptureResult = CaptureResult(outcome: CacheOutcome, writes: seq<seq<Record>>)

  /** The file after a sequence of whole-file writes. */
  function FileAfter(file: Option<seq<Record>>, writes: seq<seq<Record>>): Option<seq<Record>>
  {
    if writes == [] then file else Some(writes[|writes| - 1])
  }

  /** `data['url'][-4:]`, which is the whole url when it is shorter than four. */
  function LastFour(url: string): string
  {
    if |url| >= 4 then url[|url| - 4..] else url
  }

  predicate IsPdfUrl(url: string)
  {
    LastFour(url) in [".pdf", ".PDF"]
  }

  /** The truth value Python gives to `data['content']`. */
  predicate Truthy(c: Content)
  {
    match c
    case Text(s) => s != ""
    case Pages(cs) => cs != []
  }

  /** The record written the moment a capture is accepted. */
  function PendingRecord(req: Request): Record
  {
    Record(req.url, "", req.kind, Pages([]), "", "", false, [])
  }

  /** The record a finished capture commits. */
  function CommittedRecord(url: string, today: string, kind: string, raw: Content,
                           extract: string): Record
  {
    Record(url, today, kind, raw, extract, "", true, [])
  }

  /** The built-in title instructions, in Chinese and in English. */
  const CnTitlePrompt: string := "参考资料是一篇论文的首页，请提取出一句话作为标题。"
  const EnTitlePrompt: string :=
    "The reference material is the first page of a paper. Please extract one sentence as the title"

  /** The instruction passed to the title extraction; any language other than
      `CN` or `EN` leaves it unbound. */
  function TitlePrompt(lan: string): (r: Option<string>)
    ensures r.Some? <==> lan == "CN" || lan == "EN"
  {
    if lan == "CN" then Some(CnTitlePrompt)
    else if lan == "EN" then Some(EnTitlePrompt)
    else None
  }

  /** Where the PDF parser reads from: a `file://` url is decoded and sanitized,
      any other url is passed on as it is. */
  function PdfSource(url: string, env: Env): string
  {
    if IsLocalPath(url) then SanitizeChromeFilePath(env.decodePath(url), env.onDisk) else url
  }

  /** `content[0]['metadata']['title']`: present only for a non-empty chunk list;
      on text it raises. */
  function FirstTitle(c: Content): Option<string>
  {
    match c
    case Pages(cs) => if cs != [] then Some(cs[0].title) else None
    case Text(_) => None
  }

  /** `cache_data(data, cache_file)`: the PDF branch, the non-empty HTML branch,
      or neither; the final commit runs after either branch and when neither applies. */
  function Capture(file: Option<seq<Record>>, req: Request, env: Env): CaptureResult
  {
    if IsPdfUrl(req.url) then
      CapturePdf(Lines(file), req, env, env.parsePdf(PdfSource(req.url, env)))
    else if Truthy(req.content) && req.kind == "html" then
      CaptureHtml(Lines(file), req, env.today, HtmlContent(req.content, env.parseHtml(req.content)))
    else
      CaptureResult(Cached, [Replaced(Lines(file), CommittedRecord(req.url, env.today, req.kind, req.content, ""))])
  }

  /** The PDF branch, given what the parser did: pending write, then
      delete-and-fail, or title-and-commit. */
  function CapturePdf(lines: seq<Record>, req: Request, env: Env, parsed: ParseOutcome): (r: CaptureResult)
    ensures |r.writes| >= 1 && r.writes[0] == lines + [PendingRecord(req)]
    ensures r.outcome == Failed <==> parsed.ParseError?
  {
    var pending := lines + [PendingRecord(req)];
    match parsed
    case ParseError =>
      CaptureResult(Failed, [pending, WithoutUrl(pending, req.url)])
    case Parsed(chunks) =>
      var prompt := TitlePrompt(env.promptLan);
      if chunks == [] || prompt.None? then CaptureResult(Raised, [pending])
      else
        var extract := env.getTitle(chunks[0].pageContent, prompt.value);
        var rec := CommittedRecord(req.url, env.today, "pdf", Pages(chunks), extract);
        CaptureResult(Cached, [pending, Replaced(pending, rec)])
  }

  /** `data['content']` after the HTML parse: the chunks, or the content as sent
      (text or chunks) when the parse raised. */
  function HtmlContent(sent: Content, parsed: ParseOutcome): Content
  {
    match parsed
    case Parsed(chunks) => Pages(chunks)
    case ParseError => sent
  }

  /** The HTML branch, given the content after the parse: pending write, then the
      title lookup on that content, then the commit. */
  function CaptureHtml(lines: seq<Record>, req: Request, today: string, content: Content): (r: CaptureResult)
    ensures |r.writes| >= 1 && r.writes[0] == lines + [PendingRecord(req)]
    ensures r.outcome != Failed
    ensures r.outcome == Cached <==> FirstTitle(content).Some?
  {
    var pending := lines + [PendingRecord(req)];
    match FirstTitle(content)
    case None => CaptureResult(Raised, [pending])
    case Some(title) =>
      var rec := CommittedRecord(req.url, today, req.kind, content, title);
      CaptureResult(Cached, [pending, Replaced(pending, rec)])
  }

  /** The pending record disappears when its url is deleted. */
  lemma PendingDropped(lines: seq<Record>, req: Request)
    ensures WithoutUrl(lines + [PendingRecord(req)], req.url) == WithoutUrl(lines, req.url)
  {
    WithoutUrlAppend(lines, [PendingRecord(req)], req.url);
    assert WithoutUrl([PendingRecord(req)], req.url) == [];
  }

  /** The pending record disappears in every later commit of its url. */
  lemma PendingIsTransparent(lines: seq<Record>, req: Request)
    ensures forall rec: Record :: rec.url == req.url ==>
      Replaced(lines + [PendingRecord(req)], rec) == Replaced(lines, rec)
  {
    PendingDropped(lines, req);
  }

  /** Only the exact suffixes `.pdf` and `.PDF` select the PDF branch. */
  lemma PdfSuffixExact(url: string)
    ensures IsPdfUrl(url) <==>
      |url| >= 4 && (url[|url| - 4..] == ".pdf" || url[|url| - 4..] == ".PDF")
  {
    if |url| < 4 {
      assert |LastFour(url)| < 4;
    }
  }

  /** Every capture ends in one of three ways: committed (after a pending write,
      or directly when neither branch applies), failed after deleting the url, or
      raised after the pending write. */
  lemma CaptureShape(file: Option<seq<Record>>, req: Request, env: Env) returns (rec: Record)
    ensures var r, s := Capture(file, req, env), Lines(file);
      var p := s + [PendingRecord(req)];
      (r.outcome == Cached ==>
         rec.url == req.url && rec.checked && rec.time == env.today &&
         (r.writes == [Replaced(s, rec)] || r.writes == [p, Replaced(p, rec)])) &&
      (r.outcome == Failed ==> r.writes == [p, WithoutUrl(p, req.url)]) &&
      (r.outcome == Raised ==> r.writes == [p])
  {
    var s := Lines(file);
    rec := PendingRecord(req);
    if IsPdfUrl(req.url) {
      var parsed := env.parsePdf(PdfSource(req.url, env));
      assert Capture(file, req, env) == CapturePdf(s, req, env, parsed);
      if parsed.Parsed? && parsed.chunks != [] && TitlePrompt(env.promptLan).Some? {
        rec := CommittedRecord(req.url, env.today, "pdf", Pages(parsed.chunks),
                               env.getTitle(parsed.chunks[0].pageContent, TitlePrompt(env.promptLan).value));
      }
    } else if Truthy(req.content) && req.kind == "html" {
      var content := HtmlContent(req.content, env.parseHtml(req.content));
      assert Capture(file, req, env) == CaptureHtml(s, req, env.today, content);
      if FirstTitle(content).Some? {
        rec := CommittedRecord(req.url, env.today, req.kind, content, FirstTitle(content).value);
      }
    } else {
      rec := CommittedRecord(req.url, env.today, req.kind, req.content, "");
    }
  }

  /** A capture that returns `Cached` has committed one record of its url,
      checked and dated today, on top of the lines it started from. */
  lemma CachedCommit(file: Option<seq<Record>>, req: Request, env: Env) returns (rec: Record)
    requires Capture(file, req, env).outcome == Cached
    ensures rec.url == req.url && rec.checked && rec.time == env.today
    ensures |Capture(file, req, env).writes| >= 1
    ensures FileAfter(file, Capture(file, req, env).writes) == Some(Replaced(Lines(file), rec))
    ensures LastCommitted(Capture(file, req, env).writes) == Some(rec)
  {
    rec := CaptureShape(file, req, env);
    var s, r := Lines(file), Capture(file, req, env);
    var p := s + [PendingRecord(req)];
    PendingIsTransparent(s, req);
    if r.writes != [Replaced(s, rec)] {
      assert r.writes == [p, Replaced(p, rec)];
      assert Replaced(p, rec) == Replaced(s, rec);
    }
  }

  /** Every whole-file content in `w` holds the records of other urls than `u`
      exactly as `s` does. */
  predicate KeepsOthers(w: seq<seq<Record>>, s: seq<Record>, u: string)
  {
    forall k :: 0 <= k < |w| ==> WithoutUrl(w[k], u) == WithoutUrl(s, u)
  }

  /** Every capture writes the file at least once, and every write, the last one
      included, leaves the records of all other urls exactly as they were. */
  lemma CaptureTouchesOnlyItsUrl(file: Option<seq<Record>>, req: Request, env: Env)
    ensures |Capture(file, req, env).writes| >= 1
    ensures KeepsOthers(Capture(file, req, env).writes, Lines(file), req.url)
  {
    if IsPdfUrl(req.url) {
      CapturePdfKeepsOthers(file, req, env);
    } else if Truthy(req.content) && req.kind == "html" {
      CaptureHtmlKeepsOthers(file, req, env);
    } else {
      CaptureOtherKeepsOthers(file, req, env);
    }
  }

  /** The one write of a direct commit keeps the records of other urls. */
  lemma CaptureOtherKeepsOthers(file: Option<seq<Record>>, req: Request, env: Env)
    requires !IsPdfUrl(req.url) && !(Truthy(req.content) && req.kind == "html")
    ensures |Capture(file, req, env).writes| >= 1
    ensures KeepsOthers(Capture(file, req, env).writes, Lines(file), req.url)
  {
    var rec := CommittedRecord(req.url, env.today, req.kind, req.content, "");
    assert Capture(file, req, env).writes == [Replaced(Lines(file), rec)];
    ReplacedKeepsOthers(Lines(file), rec);
  }

  /** Every write of the PDF branch keeps the records of other urls. */
  lemma CapturePdfKeepsOthers(file: Option<seq<Record>>, req: Request, env: Env)
    requires IsPdfUrl(req.url)
    ensures |Capture(file, req, env).writes| >= 1
    ensures KeepsOthers(Capture(file, req, env).writes, Lines(file), req.url)
  {
    var s := Lines(file);
    var parsed := env.parsePdf(PdfSource(req.url, env));
    assert Capture(file, req, env) == CapturePdf(s, req, env, parsed);
    PendingDropped(s, req);
    PdfWritesKeepOthers(s, req, env, parsed);
  }

  /** The PDF branch's writes, given the parser's result: the pending append, then
      the delete or the commit, each keeping the records of other urls. */
  lemma PdfWritesKeepOthers(s: seq<Record>, req: Request, env: Env, parsed: ParseOutcome)
    requires WithoutUrl(s + [PendingRecord(req)], req.url) == WithoutUrl(s, req.url)
    ensures KeepsOthers(CapturePdf(s, req, env, parsed).writes, s, req.url)
  {
    var p, u := s + [PendingRecord(req)], req.url;
    var w := CapturePdf(s, req, env, parsed).writes;
    match parsed
    case ParseError =>
      WithoutUrlIdempotent(p, u);
      assert w == [p, WithoutUrl(p, u)];
    case Parsed(chunks) =>
      var prompt := TitlePrompt(env.promptLan);
      if chunks != [] && prompt.Some? {
        var rec := CommittedRecord(u, env.today, "pdf", Pages(chunks),
                                   env.getTitle(chunks[0].pageContent, prompt.value));
        ReplacedKeepsOthers(p, rec);
        assert w == [p, Replaced(p, rec)];
      } else {
        assert w == [p];
      }
  }

  /** Every write of the HTML branch keeps the records of other urls. */
  lemma CaptureHtmlKeepsOthers(file: Option<seq<Record>>, req: Request, env: Env)
    requires !IsPdfUrl(req.url) && Truthy(req.content) && req.kind == "html"
    ensures |Capture(file, req, env).writes| >= 1
    ensures KeepsOthers(Capture(file, req, env).writes, Lines(file), req.url)
  {
    var s := Lines(file);
    var p := s + [PendingRecord(req)];
    var content := HtmlContent(req.content, env.parseHtml(req.content));
    var w := CaptureHtml(s, req, env.today, content).writes;
    assert Capture(file, req, env).writes == w;
    PendingDropped(s, req);
    match FirstTitle(content)
    case None =>
      assert w == [p];
    case Some(title) =>
      var rec := CommittedRecord(req.url, env.today, req.kind, content, title);
      ReplacedKeepsOthers(p, rec);
      assert w == [p, Replaced(p, rec)];
  }

  /** A PDF capture first persists the pending record after the existing lines. */
  lemma CapturePdfWritesPending(file: Option<seq<Record>>, req: Request, env: Env)
    requires IsPdfUrl(req.url)
    ensures Capture(file, req, env).writes[0] == Lines(file) + [PendingRecord(req)]
    ensures Capture(file, req, env).writes[0][|Lines(file)|].checked == false
  {
  }

  /** When the PDF parser fails the capture returns `failed`, the file holds no
      record with the url, and it holds every other record in its original order. */
  lemma CapturePdfFailure(file: Option<seq<Record>>, req: Request, env: Env)
    requires IsPdfUrl(req.url)
    requires env.parsePdf(PdfSource(req.url, env)) == ParseError
    ensures Capture(file, req, env).outcome == Failed
    ensures FileAfter(file, Capture(file, req, env).writes) == Some(WithoutUrl(Lines(file), req.url))
    ensures forall x :: x in Lines(FileAfter(file, Capture(file, req, env).writes)) ==> x.url != req.url
  {
    PendingDropped(Lines(file), req);
  }

  /** A PDF that parses to at least one page, with a known prompt language, is
      committed as a `pdf` record titled from its first page. */
  lemma CapturePdfSuccess(file: Option<seq<Record>>, req: Request, env: Env, chunks: seq<Chunk>)
    requires IsPdfUrl(req.url)
    requires env.parsePdf(PdfSource(req.url, env)) == Parsed(chunks)
    requires chunks != [] && env.promptLan in ["CN", "EN"]
    ensures Capture(file, req, env).outcome == Cached
    ensures FileAfter(file, Capture(file, req, env).writes) ==
      Some(Replaced(Lines(file), CommittedRecord(req.url, env.today, "pdf", Pages(chunks),
                                                 env.getTitle(chunks[0].pageContent,
                                                              TitlePrompt(env.promptLan).value))))
  {
    var s := Lines(file);
    var prompt := TitlePrompt(env.promptLan);
    assert prompt.Some?;
    var rec := CommittedRecord(req.url, env.today, "pdf", Pages(chunks),
                               env.getTitle(chunks[0].pageContent, prompt.value));
    assert Capture(file, req, env) == CapturePdf(s, req, env, Parsed(chunks));
    assert CapturePdf(s, req, env, Parsed(chunks)) ==
      CaptureResult(Cached, [s + [PendingRecord(req)], Replaced(s + [PendingRecord(req)], rec)]);
    PendingIsTransparent(s, req);
  }

  /** A PDF that parses to no pages, or a prompt language other than `CN`/`EN`,
      raises after the pending write: the pending record is left in the file. */
  lemma CapturePdfRaises(file: Option<seq<Record>>, req: Request, env: Env, chunks: seq<Chunk>)
    requires IsPdfUrl(req.url)
    requires env.parsePdf(PdfSource(req.url, env)) == Parsed(chunks)
    requires chunks == [] || env.promptLan !in ["CN", "EN"]
    ensures Capture(file, req, env).outcome == Raised
    ensures FileAfter(file, Capture(file, req, env).writes) == Some(Lines(file) + [PendingRecord(req)])
  {
  }

  /** An HTML page whose parse fails raises at the title lookup (it indexes the
      text it was sent): the pending record is left and nothing is committed. */
  lemma CaptureHtmlParseFailure(file: Option<seq<Record>>, req: Request, env: Env)
    requires !IsPdfUrl(req.url) && req.kind == "html"
    requires req.content.Text? && req.content.text != ""
    requires env.parseHtml(req.content) == ParseError
    ensures Capture(file, req, env).outcome == Raised
    ensures Capture(file, req, env).writes == [Lines(file) + [PendingRecord(req)]]
  {
  }

  /** An HTML page that parses to chunks is committed with the first chunk's title
      and the parsed chunks as its content. */
  lemma CaptureHtmlSuccess(file: Option<seq<Record>>, req: Request, env: Env, chunks: seq<Chunk>)
    requires !IsPdfUrl(req.url) && req.kind == "html" && Truthy(req.content)
    requires env.parseHtml(req.content) == Parsed(chunks) && chunks != []
    ensures Capture(file, req, env).outcome == Cached
    ensures Capture(file, req, env).writes[0] == Lines(file) + [PendingRecord(req)]
    ensures FileAfter(file, Capture(file, req, env).writes) ==
      Some(Replaced(Lines(file), CommittedRecord(req.url, env.today, "html", Pages(chunks), chunks[0].title)))
  {
    PendingIsTransparent(Lines(file), req);
  }

  /** A chunk list sent by the browser as `html` whose parse raises is committed
      as sent, titled from its own first chunk. */
  lemma CaptureHtmlSentChunks(file: Option<seq<Record>>, req: Request, env: Env)
    requires !IsPdfUrl(req.url) && req.kind == "html"
    requires req.content.Pages? && req.content.chunks != []
    requires env.parseHtml(req.content) == ParseError
    ensures Capture(file, req, env).outcome == Cached
    ensures FileAfter(file, Capture(file, req, env).writes) ==
      Some(Replaced(Lines(file), CommittedRecord(req.url, env.today, "html", req.content,
                                                 req.content.chunks[0].title)))
  {
    var s := Lines(file);
    var content := HtmlContent(req.content, env.parseHtml(req.content));
    assert content == req.content;
    assert Capture(file, req, env) == CaptureHtml(s, req, env.today, content);
    PendingIsTransparent(s, req);
  }

  /** A payload that is neither a PDF nor non-empty HTML writes no pending record
      but is still committed, once, with an empty title and its content as sent. */
  lemma CaptureOtherPayload(file: Option<seq<Record>>, req: Request, env: Env)
    requires !IsPdfUrl(req.url) && !(Truthy(req.content) && req.kind == "html")
    ensures Capture(file, req, env) ==
      CaptureResult(Cached,
                    [Replaced(Lines(file), CommittedRecord(req.url, env.today, req.kind, req.content, ""))])
  {
  }

  /** Outside the PDF branch the PDF parser is never consulted. */
  lemma CaptureIgnoresPdfParser(file: Option<seq<Record>>, req: Request, env: Env,
                                parsePdf: string -> ParseOutcome)
    requires !IsPdfUrl(req.url)
    ensures Capture(file, req, env) == Capture(file, req, env.(parsePdf := parsePdf))
  {
  }

  /** A capture that returns `Cached` leaves exactly one record with the url, last
      in the file, checked and dated today; and it introduces no duplicate url. */
  lemma CaptureCommits(file: Option<seq<Record>>, req: Request, env: Env)
    requires Capture(file, req, env).outcome == Cached
    ensures FileAfter(file, Capture(file, req, env).writes).Some?
    ensures var s := FileAfter(file, Capture(file, req, env).writes).value;
      |s| >= 1 && s[|s| - 1].url == req.url && s[|s| - 1].checked && s[|s| - 1].time == env.today &&
      forall i :: 0 <= i < |s| ==> (s[i].url == req.url <==> i == |s| - 1)
    ensures UniqueUrls(Lines(file)) ==> UniqueUrls(Lines(FileAfter(file, Capture(file, req, env).writes)))
  {
    var rec := CachedCommit(file, req, env);
    if UniqueUrls(Lines(file)) {
      ReplacedKeepsUnique(Lines(file), rec);
    }
  }

  /** The record a committed write puts last. */
  function LastCommitted(w: seq<seq<Record>>): Option<Record>
  {
    if |w| >= 1 && |w[|w| - 1]| >= 1 then Some(w[|w| - 1][|w[|w| - 1]| - 1]) else None
  }

  /** The PDF branch decides its outcome and its committed record without
      looking at the existing lines. */
  lemma CapturePdfIndependent(s1: seq<Record>, s2: seq<Record>, req: Request, env: Env, parsed: ParseOutcome)
    ensures CapturePdf(s1, req, env, parsed).outcome == CapturePdf(s2, req, env, parsed).outcome
    ensures CapturePdf(s1, req, env, parsed).outcome == Cached ==>
      LastCommitted(CapturePdf(s1, req, env, parsed).writes).Some? &&
      LastCommitted(CapturePdf(s1, req, env, parsed).writes) ==
      LastCommitted(CapturePdf(s2, req, env, parsed).writes)
  {
  }

  /** The HTML branch decides its outcome and its committed record without
      looking at the existing lines. */
  lemma CaptureHtmlIndependent(s1: seq<Record>, s2: seq<Record>, req: Request, today: string, content: Content)
    ensures CaptureHtml(s1, req, today, content).outcome == CaptureHtml(s2, req, today, content).outcome
    ensures CaptureHtml(s1, req, today, content).outcome == Cached ==>
      LastCommitted(CaptureHtml(s1, req, today, content).writes).Some? &&
      LastCommitted(CaptureHtml(s1, req, today, content).writes) ==
      LastCommitted(CaptureHtml(s2, req, today, content).writes)
  {
  }

  /** What a capture returns, and the record it commits, do not depend on the
      lines already in the file. */
  lemma CaptureIndependentOfFile(file1: Option<seq<Record>>, file2: Option<seq<Record>>,
                                 req: Request, env: Env)
    ensures Capture(file1, req, env).outcome == Capture(file2, req, env).outcome
    ensures Capture(file1, req, env).outcome == Cached ==>
      LastCommitted(Capture(file1, req, env).writes).Some? &&
      LastCommitted(Capture(file1, req, env).writes) == LastCommitted(Capture(file2, req, env).writes)
  {
    var s1, s2 := Lines(file1), Lines(file2);
    if IsPdfUrl(req.url) {
      var parsed := env.parsePdf(PdfSource(req.url, env));
      assert Capture(file1, req, env) == CapturePdf(s1, req, env, parsed);
      assert Capture(file2, req, env) == CapturePdf(s2, req, env, parsed);
      CapturePdfIndependent(s1, s2, req, env, parsed);
    } else if Truthy(req.content) && req.kind == "html" {
      var content := HtmlContent(req.content, env.parseHtml(req.content));
      assert Capture(file1, req, env) == CaptureHtml(s1, req, env.today, content);
      assert Capture(file2, req, env) == CaptureHtml(s2, req, env.today, content);
      CaptureHtmlIndependent(s1, s2, req, env.today, content);
    }
  }

  /** A committed capture reads nothing of the file but the records of other
      urls: two files that agree on those end equal. */
  lemma CaptureDependsOnlyOnOthers(file1: Option<seq<Record>>, file2: Option<seq<Record>>,
                                   req: Request, env: Env)
    requires WithoutUrl(Lines(file1), req.url) == WithoutUrl(Lines(file2), req.url)
    requires Capture(file1, req, env).outcome == Cached
    ensures FileAfter(file1, Capture(file1, req, env).writes) ==
            FileAfter(file2, Capture(file2, req, env).writes)
  {
    CaptureIndependentOfFile(file1, file2, req, env);
    var rec1 := CachedCommit(file1, req, env);
    var rec2 := CachedCommit(file2, req, env);
    assert rec1 == rec2;
  }

  /** Two captures of one url, the second of which returns `Cached`: the file ends
      as if the first had never run. The second replaces, it does not merge. */
  lemma CaptureSupersedes(file: Option<seq<Record>>, first: Request, env1: Env,
                          second: Request, env2: Env)
    requires first.url == second.url
    requires Capture(FileAfter(file, Capture(file, first, env1).writes), second, env2).outcome
             == Cached
    ensures var mid := FileAfter(file, Capture(file, first, env1).writes);
      FileAfter(mid, Capture(mid, second, env2).writes) ==
      FileAfter(file, Capture(file, second, env2).writes)
  {
    var mid := FileAfter(file, Capture(file, first, env1).writes);
    CaptureFileKeepsOthers(file, first, env1);
    CaptureDependsOnlyOnOthers(mid, file, second, env2);
  }

  /** The file a capture leaves behind holds the records of other urls as before. */
  lemma CaptureFileKeepsOthers(file: Option<seq<Record>>, req: Request, env: Env)
    ensures WithoutUrl(Lines(FileAfter(file, Capture(file, req, env).writes)), req.url) ==
            WithoutUrl(Lines(file), req.url)
  {
    CaptureTouchesOnlyItsUrl(file, req, env);
    LastKeepsOthers(file, Capture(file, req, env).writes, req.url);
  }

  /** The file after a non-empty run of writes that all keep the other urls. */
  lemma LastKeepsOthers(file: Option<seq<Record>>, w: seq<seq<Record>>, u: string)
    requires |w| >= 1 && KeepsOthers(w, Lines(file), u)
    ensures WithoutUrl(Lines(FileAfter(file, w)), u) == WithoutUrl(Lines(file), u)
  {
    assert FileAfter(file, w) == Some(w[|w| - 1]);
  }

  /** A capture that raises while the file already holds a record of its url
      leaves two records of that url: the one-record-per-url shape of the file
      is kept only by captures that return `Cached`. */
  lemma CaptureRaisedDuplicates(file: Option<seq<Record>>, req: Request, env: Env, i: nat)
    requires i < |Lines(file)| && Lines(file)[i].url == req.url
    requires Capture(file, req, env).outcome == Raised
    ensures !UniqueUrls(Lines(FileAfter(file, Capture(file, req, env).writes)))
  {
    var s := Lines(file);
    CaptureOutcomes(file, req, env);
    var t := s + [PendingRecord(req)];
    assert Lines(FileAfter(file, Capture(file, req, env).writes)) == t;
    assert t[i].url == t[|s|].url;
  }

  /** Whatever does not return `Cached`: `failed` only on the PDF branch, and an
      exception leaves the file as the pending write made it. */
  lemma CaptureOutcomes(file: Option<seq<Record>>, req: Request, env: Env)
    ensures Capture(file, req, env).outcome == Failed ==> IsPdfUrl(req.url)
    ensures Capture(file, req, env).outcome == Raised ==>
      Capture(file, req, env).writes == [Lines(file) + [PendingRecord(req)]]
  {
  }
}
