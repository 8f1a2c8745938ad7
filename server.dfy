/** The `/endpoint` handlers and the three files they own: the browser cache, the
    popup-url file and the figure-address file. */
module Server {
  import opened Records
  import opened CapturePipeline

  /** The one line of the popup-url file, `{'url': ...}`. */
  datatype PopupLine = PopupLine(url: string)

  /** The one line of the figure-address file, `{'address': ...}`. */
  datatype AddressLine = AddressLine(address: string)

  /** What `/endpoint` answers: a JSON string, a `{'result': ...}` object, or no
      answer at all when the task is none of the four (the handler raises). */
  datatype Response = Str(text: string) | ResultObject(result: string) | NoResponse

  // ---------------------------------------------------------------------------
  // change_checkbox

  /** `text[3:]`: the url after the three-character prefix of a checkbox id. */
  function CheckboxKey(ckid: string): (key: string)
    ensures |ckid| >= 3 ==> ckid == ckid[..3] + key
    ensures |ckid| < 3 ==> key == ""
  {
    if |ckid| >= 3 then ckid[3..] else ""
  }

  /** What `change_checkbox_state` answers and what it writes to the cache file. */
  datatype ToggleResult = ToggleResult(result: string, writes: seq<seq<Record>>)

  /** `change_checkbox_state(text, cache_file)`. */
  function Toggle(file: Option<seq<Record>>, ckid: string): ToggleResult
  {
    if file.None? then ToggleResult("no file", [])
    else ToggleResult("changed", [Toggled(file.value, CheckboxKey(ckid))])
  }

  /** Without a cache file the answer is `no file` and nothing is written, so no
      file is created. */
  lemma ToggleMissingFile(ckid: string)
    ensures Toggle(None, ckid) == ToggleResult("no file", [])
    ensures FileAfter(None, Toggle(None, ckid).writes) == None
  {
  }

  /** With a cache file the answer is `changed` even when no url matches; the file
      is rewritten once, with the same length and order, and exactly the records
      whose url is the key have `checked` negated. */
  lemma ToggleExisting(s: seq<Record>, ckid: string)
    ensures Toggle(Some(s), ckid).result == "changed"
    ensures |Toggle(Some(s), ckid).writes| == 1
    ensures var t := Toggle(Some(s), ckid).writes[0];
      |t| == |s| &&
      forall i :: 0 <= i < |s| ==>
        t[i].url == s[i].url &&
        (t[i].checked != s[i].checked <==> s[i].url == CheckboxKey(ckid)) &&
        t[i].(checked := s[i].checked) == s[i]
  {
    var t := Toggled(s, CheckboxKey(ckid));
    forall i | 0 <= i < |s| ensures t[i].url == s[i].url {
      assert t[i].(checked := s[i].checked) == s[i];
    }
  }

  /** Toggling the same checkbox twice leaves the cache file as it was. */
  lemma ToggleTwiceRestores(file: Option<seq<Record>>, ckid: string)
    ensures var once := FileAfter(file, Toggle(file, ckid).writes);
      FileAfter(once, Toggle(once, ckid).writes) == file
  {
    if file.Some? {
      ToggledTwice(file.value, CheckboxKey(ckid));
    }
  }

  // ---------------------------------------------------------------------------
  // web_listening

  /** The three files the endpoint reads and writes. */
  datatype Files = Files(cache: Option<seq<Record>>, popup: Option<seq<PopupLine>>,
                         address: Option<seq<AddressLine>>)

  /** One request: the answer, the files afterwards, and the writes to the cache file. */
  datatype Step = Step(response: Response, files: Files, cacheWrites: seq<seq<Record>>)

  /** `web_listening`: the task decides the handler and the answer. A capture is
      described as if it ran to completion before the next request. */
  function Dispatch(files: Files, req: Request, env: Env): Step
  {
    if req.task == "change_checkbox" then
      var t := Toggle(files.cache, req.ckid);
      Step(ResultObject(t.result), files.(cache := FileAfter(files.cache, t.writes)), t.writes)
    else if req.task == "cache" then
      var c := Capture(files.cache, req, env);
      Step(Str("caching"), files.(cache := FileAfter(files.cache, c.writes)), c.writes)
    else if req.task == "pop_url" then
      Step(Str("Update URL"), files.(popup := Some([PopupLine(req.url)])), [])
    else if req.task == "set_addr" then
      Step(Str("Update Address"), files.(address := Some([AddressLine(req.addr)])), [])
    else
      Step(NoResponse, files, [])
  }

  /** The answer of each task; a capture's own outcome never reaches the caller. */
  lemma DispatchResponses(files: Files, req: Request, env: Env)
    ensures req.task == "cache" ==> Dispatch(files, req, env).response == Str("caching")
    ensures req.task == "pop_url" ==> Dispatch(files, req, env).response == Str("Update URL")
    ensures req.task == "set_addr" ==> Dispatch(files, req, env).response == Str("Update Address")
    ensures req.task == "change_checkbox" ==>
      Dispatch(files, req, env).response == ResultObject(Toggle(files.cache, req.ckid).result)
    ensures req.task !in {"cache", "pop_url", "set_addr", "change_checkbox"} <==>
      Dispatch(files, req, env).response == NoResponse
  {
  }

  /** After `pop_url` the popup file holds exactly one line, whatever it held
      before, and no other file changes. */
  lemma DispatchPopUrl(files: Files, req: Request, env: Env)
    requires req.task == "pop_url"
    ensures Dispatch(files, req, env).files == files.(popup := Some([PopupLine(req.url)]))
    ensures Dispatch(files, req, env).cacheWrites == []
  {
  }

  /** After `set_addr` the address file holds exactly one line, whatever it held
      before, and no other file changes. */
  lemma DispatchSetAddr(files: Files, req: Request, env: Env)
    requires req.task == "set_addr"
    ensures Dispatch(files, req, env).files == files.(address := Some([AddressLine(req.addr)]))
    ensures Dispatch(files, req, env).cacheWrites == []
  {
  }

  /** Only the singleton tasks touch the singleton files; the cache file after a
      request is what its last write made it; an unknown task changes nothing. */
  lemma DispatchFrames(files: Files, req: Request, env: Env)
    ensures req.task != "pop_url" ==> Dispatch(files, req, env).files.popup == files.popup
    ensures req.task != "set_addr" ==> Dispatch(files, req, env).files.address == files.address
    ensures Dispatch(files, req, env).files.cache ==
      FileAfter(files.cache, Dispatch(files, req, env).cacheWrites)
    ensures req.task !in {"cache", "change_checkbox"} ==> Dispatch(files, req, env).cacheWrites == []
    ensures req.task !in {"cache", "pop_url", "set_addr", "change_checkbox"} ==>
      Dispatch(files, req, env).files == files
  {
  }

  // ---------------------------------------------------------------------------
  // The handlers over the files

  /** The three files as mutable state; `cacheWrites` records every whole-file
      content the cache file has been given, so the order of writes is visible. */
  class CacheFiles {
    var cache: Option<seq<Record>>
    var popup: Option<seq<PopupLine>>
    var address: Option<seq<AddressLine>>
    ghost var cacheWrites: seq<seq<Record>>

    constructor (files: Files)
      ensures Snapshot() == files && cacheWrites == []
    {
      cache, popup, address := files.cache, files.popup, files.address;
      cacheWrites := [];
    }

    function Snapshot(): Files
      reads this
    {
      Files(cache, popup, address)
    }

    /** Rewrite the cache file with `lines` (`jsonlines.open(..., mode='w')`). */
    method WriteCache(lines: seq<Record>)
      modifies this`cache, this`cacheWrites
      ensures cache == Some(lines) && cacheWrites == old(cacheWrites) + [lines]
    {
      cache := Some(lines);
      cacheWrites := cacheWrites + [lines];
    }

    /** Append one line to the cache file, creating it if absent (`mode='a'`). */
    method AppendCache(rec: Record)
      modifies this`cache, this`cacheWrites
      ensures cache == Some(Lines(old(cache)) + [rec])
      ensures cacheWrites == old(cacheWrites) + [Lines(old(cache)) + [rec]]
    {
      var lines := Lines(cache) + [rec];
      cache := Some(lines);
      cacheWrites := cacheWrites + [lines];
    }

    /** Delete every record of `url` (the failure path of the PDF branch): the
        remaining lines are written back in order. */
    method RemoveUrl(url: string)
      modifies this`cache, this`cacheWrites
      ensures cache == Some(WithoutUrl(Lines(old(cache)), url))
      ensures cacheWrites == old(cacheWrites) + [WithoutUrl(Lines(old(cache)), url)]
    {
      var lines := KeepOtherUrls(Lines(cache), url);
      WriteCache(lines);
    }

    /** Replace every record of `rec.url` by `rec`, appended last (the final commit). */
    method ReplaceRecord(rec: Record)
      modifies this`cache, this`cacheWrites
      ensures cache == Some(Replaced(Lines(old(cache)), rec))
      ensures cacheWrites == old(cacheWrites) + [Replaced(Lines(old(cache)), rec)]
    {
      var lines := KeepOtherUrls(Lines(cache), rec.url);
      lines := lines + [rec];
      WriteCache(lines);
    }

    /** `cache_data(data, cache_file)`. */
    method CacheData(req: Request, env: Env) returns (outcome: CacheOutcome)
      modifies this`cache, this`cacheWrites
      ensures outcome == Capture(old(cache), req, env).outcome
      ensures cacheWrites == old(cacheWrites) + Capture(old(cache), req, env).writes
      ensures cache == FileAfter(old(cache), Capture(old(cache), req, env).writes)
    {
      ghost var s, r := Lines(cache), Capture(cache, req, env);
      var url, kind, content, extract := req.url, req.kind, req.content, "";
      if IsPdfUrl(url) {
        AppendCache(PendingRecord(req));
        var pdfPath := PdfSource(url, env);
        var parsed := env.parsePdf(pdfPath);
        assert r == CapturePdf(s, req, env, parsed);
        if parsed.ParseError? {
          RemoveUrl(url);
          assert r.writes == [s + [PendingRecord(req)], WithoutUrl(s + [PendingRecord(req)], url)];
          return Failed;
        }
        content, kind := Pages(parsed.chunks), "pdf";
        var prompt := TitlePrompt(env.promptLan);
        if parsed.chunks == [] || prompt.None? {
          assert r.writes == [s + [PendingRecord(req)]];
          return Raised;
        }
        extract := env.getTitle(parsed.chunks[0].pageContent, prompt.value);
        assert r.writes == [Lines(cache), Replaced(Lines(cache), CommittedRecord(url, env.today, kind, content, extract))];
      } else if Truthy(content) && kind == "html" {
        AppendCache(PendingRecord(req));
        var parsed := env.parseHtml(content);
        if parsed.Parsed? {
          content := Pages(parsed.chunks);
        }
        assert content == HtmlContent(req.content, parsed);
        assert r == CaptureHtml(s, req, env.today, content);
        var title := FirstTitle(content);
        if title.None? {
          assert r.writes == [s + [PendingRecord(req)]];
          return Raised;
        }
        extract := title.value;
        assert r.writes == [Lines(cache), Replaced(Lines(cache), CommittedRecord(url, env.today, kind, content, extract))];
      } else {
        assert r.writes == [Replaced(Lines(cache), CommittedRecord(url, env.today, kind, content, extract))];
      }
      assert r.outcome == Cached;
      ReplaceRecord(CommittedRecord(url, env.today, kind, content, extract));
      outcome := Cached;
    }

    /** `change_checkbox_state(text, cache_file)`. */
    method ChangeCheckboxState(ckid: string) returns (result: string)
      modifies this`cache, this`cacheWrites
      ensures result == Toggle(old(cache), ckid).result
      ensures cacheWrites == old(cacheWrites) + Toggle(old(cache), ckid).writes
      ensures cache == FileAfter(old(cache), Toggle(old(cache), ckid).writes)
    {
      if cache.None? {
        return "no file";
      }
      var lines := ToggleLines(cache.value, CheckboxKey(ckid));
      WriteCache(lines);
      result := "changed";
    }

    /** `update_pop_url(data, cache_file_popup_url)`. */
    method UpdatePopUrl(url: string) returns (response: string)
      modifies this`popup
      ensures popup == Some([PopupLine(url)]) && response == "Update URL"
    {
      popup := Some([PopupLine(url)]);
      response := "Update URL";
    }

    /** `update_addr_for_figure(address)`. */
    method UpdateAddrForFigure(addr: string) returns (response: string)
      modifies this`address
      ensures address == Some([AddressLine(addr)]) && response == "Update Address"
    {
      address := Some([AddressLine(addr)]);
      response := "Update Address";
    }

    /** `web_listening(request)`, with the capture run to completion in place of the
        detached worker process. */
    method WebListening(req: Request, env: Env) returns (rsp: Response)
      modifies this
      ensures rsp == Dispatch(old(Snapshot()), req, env).response
      ensures Snapshot() == Dispatch(old(Snapshot()), req, env).files
      ensures cacheWrites == old(cacheWrites) + Dispatch(old(Snapshot()), req, env).cacheWrites
    {
      if req.task == "change_checkbox" {
        var result := ChangeCheckboxState(req.ckid);
        rsp := ResultObject(result);
      } else if req.task == "cache" {
        var _ := CacheData(req, env);
        rsp := Str("caching");
      } else if req.task == "pop_url" {
        var text := UpdatePopUrl(req.url);
        rsp := Str(text);
      } else if req.task == "set_addr" {
        var text := UpdateAddrForFigure(req.addr);
        rsp := Str(text);
      } else {
        rsp := NoResponse;
      }
    }
  }
}
