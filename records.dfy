/** The browser cache file: one JSON object per line, keyed by `url`.
    A file is modelled as the sequence of its records, and an absent file as `None`. */
module Records {

  datatype Option<+T> = None | Some(value: T)

  /** One chunk produced by a document parser: its `page_content` and the `title`
      entry of its `metadata`. */
  datatype Chunk = Chunk(pageContent: string, title: string)

  /** The `content` of a request and the `raw` of a record: either the text the
      browser sent or the list of chunks a parser produced. */
  datatype Content = Text(text: string) | Pages(chunks: seq<Chunk>)

  /** One line of the cache file; `kind` is the record's `type` field. */
  datatype Record = Record(url: string, time: string, kind: string, raw: Content,
                           extract: string, topic: string, checked: bool,
                           session: seq<string>)

  /** The lines a reader sees: an absent file reads as no lines. */
  function Lines(file: Option<seq<Record>>): seq<Record>
  {
    if file.Some? then file.value else []
  }

  /** No two records share a url. */
  predicate UniqueUrls(s: seq<Record>)
  {
    forall i, j :: 0 <= i < j < |s| ==> s[i].url != s[j].url
  }

  /** The urls present in `s`. */
  function UrlSet(s: seq<Record>): set<string>
  {
    set x | x in s :: x.url
  }

  // ---------------------------------------------------------------------------
  // Delete by url

  /** The records of `s` whose url differs from `url`, in their original order. */
  function WithoutUrl(s: seq<Record>, url: string): (r: seq<Record>)
    ensures |r| <= |s|
    ensures forall i :: 0 <= i < |r| ==> r[i].url != url
    ensures forall x :: x in r ==> x in s
    ensures forall x :: x in s && x.url != url ==> x in r
  {
    if s == [] then []
    else if s[|s| - 1].url != url then WithoutUrl(s[..|s| - 1], url) + [s[|s| - 1]]
    else WithoutUrl(s[..|s| - 1], url)
  }

  /** The positions of `s` whose record has a url other than `url`, ascending. */
  function KeptIndices(s: seq<Record>, url: string): seq<nat>
  {
    if s == [] then []
    else KeptIndices(s[..|s| - 1], url) + (if s[|s| - 1].url != url then [|s| - 1] else [])
  }

  /** The kept positions ascend, lie inside `s`, and are exactly the positions
      whose url differs. */
  lemma {:induction false} KeptIndicesExact(s: seq<Record>, url: string)
    ensures forall k :: 0 <= k < |KeptIndices(s, url)| ==> KeptIndices(s, url)[k] < |s|
    ensures forall k, l :: 0 <= k < l < |KeptIndices(s, url)| ==>
      KeptIndices(s, url)[k] < KeptIndices(s, url)[l]
    ensures forall j :: 0 <= j < |s| ==> (s[j].url != url <==> j in KeptIndices(s, url))
  {
    if s != [] {
      var t := s[..|s| - 1];
      KeptIndicesExact(t, url);
      assert forall j :: 0 <= j < |t| ==> s[j] == t[j];
    }
  }

  /** Deleting by url is an order-preserving filter: the k-th surviving record is
      the record at the k-th kept position (which, by `KeptIndicesExact`, ascend
      and are exactly the positions whose url differs). */
  lemma {:induction false} WithoutUrlKeepsOrder(s: seq<Record>, url: string)
    ensures |KeptIndices(s, url)| == |WithoutUrl(s, url)|
    ensures forall k :: 0 <= k < |KeptIndices(s, url)| ==>
      KeptIndices(s, url)[k] < |s| && WithoutUrl(s, url)[k] == s[KeptIndices(s, url)[k]]
  {
    KeptIndicesExact(s, url);
    if s != [] {
      var t, x := s[..|s| - 1], s[|s| - 1];
      WithoutUrlKeepsOrder(t, url);
      var ix, r := KeptIndices(t, url), WithoutUrl(t, url);
      var ix', r' := KeptIndices(s, url), WithoutUrl(s, url);
      if x.url != url {
        assert ix' == ix + [|t|] && r' == r + [x];
      } else {
        assert ix' == ix && r' == r;
      }
      forall k | 0 <= k < |ix'| ensures r'[k] == s[ix'[k]] {
        if k < |ix| {
          assert ix'[k] == ix[k] && r'[k] == r[k];
          assert s[ix[k]] == t[ix[k]];
        }
      }
    }
  }

  /** Deleting distributes over concatenation. */
  lemma {:induction false} WithoutUrlAppend(a: seq<Record>, b: seq<Record>, url: string)
    ensures WithoutUrl(a + b, url) == WithoutUrl(a, url) + WithoutUrl(b, url)
  {
    if b == [] {
      assert a + b == a;
    } else {
      var b' := b[..|b| - 1];
      assert (a + b)[..|a + b| - 1] == a + b';
      WithoutUrlAppend(a, b', url);
    }
  }

  /** Deleting a url no record carries changes nothing. */
  lemma {:induction false} WithoutAbsentUrl(s: seq<Record>, url: string)
    requires forall i :: 0 <= i < |s| ==> s[i].url != url
    ensures WithoutUrl(s, url) == s
  {
    if s != [] {
      WithoutAbsentUrl(s[..|s| - 1], url);
    }
  }

  /** Deleting the same url twice is deleting it once. */
  lemma WithoutUrlIdempotent(s: seq<Record>, url: string)
    ensures WithoutUrl(WithoutUrl(s, url), url) == WithoutUrl(s, url)
  {
    WithoutAbsentUrl(WithoutUrl(s, url), url);
  }

  /** Deleting from a store without duplicate urls leaves none. */
  lemma {:induction false} WithoutUrlKeepsUnique(s: seq<Record>, url: string)
    requires UniqueUrls(s)
    ensures UniqueUrls(WithoutUrl(s, url))
  {
    WithoutUrlKeepsOrder(s, url);
    KeptIndicesExact(s, url);
    var r, ix := WithoutUrl(s, url), KeptIndices(s, url);
    forall i, j | 0 <= i < j < |r| ensures r[i].url != r[j].url {
      assert ix[i] < ix[j];
    }
  }

  /** The loop that rebuilds the cache without one url: keep every line whose url
      differs, appending it to `lines` in file order. */
  method KeepOtherUrls(file: seq<Record>, url: string) returns (lines: seq<Record>)
    ensures lines == WithoutUrl(file, url)
  {
    lines := [];
    for i := 0 to |file|
      invariant lines == WithoutUrl(file[..i], url)
    {
      assert file[..i + 1][..i] == file[..i];
      if file[i].url != url {
        lines := lines + [file[i]];
      }
    }
    assert file[..|file|] == file;
  }

  // ---------------------------------------------------------------------------
  // Replace by url

  /** The store after committing `rec`: every record with its url is dropped and
      `rec` is appended last. */
  function Replaced(s: seq<Record>, rec: Record): (r: seq<Record>)
    ensures |r| >= 1 && r[|r| - 1] == rec
    ensures forall i :: 0 <= i < |r| ==> (r[i].url == rec.url <==> i == |r| - 1)
    ensures |r| <= |s| + 1
  {
    WithoutUrl(s, rec.url) + [rec]
  }

  /** Replacing leaves the records of every other url exactly as they were, in order. */
  lemma ReplacedKeepsOthers(s: seq<Record>, rec: Record)
    ensures WithoutUrl(Replaced(s, rec), rec.url) == WithoutUrl(s, rec.url)
  {
    WithoutUrlAppend(WithoutUrl(s, rec.url), [rec], rec.url);
    WithoutUrlIdempotent(s, rec.url);
    assert WithoutUrl([rec], rec.url) == [];
  }

  /** Replacing twice with the same record is replacing once. */
  lemma ReplacedIdempotent(s: seq<Record>, rec: Record)
    ensures Replaced(Replaced(s, rec), rec) == Replaced(s, rec)
  {
    ReplacedKeepsOthers(s, rec);
  }

  /** A store without duplicate urls has none after a replace. */
  lemma ReplacedKeepsUnique(s: seq<Record>, rec: Record)
    requires UniqueUrls(s)
    ensures UniqueUrls(Replaced(s, rec))
  {
    WithoutUrlKeepsUnique(s, rec.url);
  }

  /** Replacing adds the record's url and loses no other. */
  lemma ReplacedUrls(s: seq<Record>, rec: Record)
    ensures UrlSet(Replaced(s, rec)) == UrlSet(s) + {rec.url}
  {
    var r := Replaced(s, rec);
    forall u | u in UrlSet(s) + {rec.url} ensures u in UrlSet(r) {
      if u != rec.url {
        var x :| x in s && x.url == u;
        assert x in WithoutUrl(s, rec.url);
        assert x in r;
      } else {
        assert r[|r| - 1] in r;
      }
    }
  }

  /** A run of commits, one after another. */
  function ReplaceAll(s: seq<Record>, recs: seq<Record>): seq<Record>
    decreases |recs|
  {
    if recs == [] then s else ReplaceAll(Replaced(s, recs[0]), recs[1..])
  }

  /** Committing records one by one, in any order, never duplicates a url and
      keeps every url that was present or committed. */
  lemma {:induction false} ReplaceAllUrls(s: seq<Record>, recs: seq<Record>)
    requires UniqueUrls(s)
    ensures UniqueUrls(ReplaceAll(s, recs))
    ensures UrlSet(ReplaceAll(s, recs)) == UrlSet(s) + UrlSet(recs)
    decreases |recs|
  {
    if recs != [] {
      ReplacedKeepsUnique(s, recs[0]);
      ReplacedUrls(s, recs[0]);
      ReplaceAllUrls(Replaced(s, recs[0]), recs[1..]);
      assert recs == [recs[0]] + recs[1..];
      assert UrlSet(recs) == {recs[0].url} + UrlSet(recs[1..]) by {
        forall u | u in UrlSet(recs) ensures u in {recs[0].url} + UrlSet(recs[1..]) {
          var x :| x in recs && x.url == u;
          if x != recs[0] { assert x in recs[1..]; }
        }
      }
    }
  }

  // ---------------------------------------------------------------------------
  // Toggle checked

  /** One line after the toggle: `checked` negated when the url is `key`. */
  function Flip(x: Record, key: string): Record
  {
    if x.url == key then x.(checked := !x.checked) else x
  }

  /** The store after toggling `key`: same length and order; exactly the records
      whose url is `key` have `checked` negated; no other field changes. */
  function Toggled(s: seq<Record>, key: string): (r: seq<Record>)
    ensures |r| == |s|
    ensures forall i :: 0 <= i < |s| ==> r[i].checked == (s[i].checked != (s[i].url == key))
    ensures forall i :: 0 <= i < |s| ==> r[i].(checked := s[i].checked) == s[i]
  {
    if s == [] then [] else Toggled(s[..|s| - 1], key) + [Flip(s[|s| - 1], key)]
  }

  /** Toggling the same key twice restores the store. */
  lemma ToggledTwice(s: seq<Record>, key: string)
    ensures Toggled(Toggled(s, key), key) == s
  {
    var r := Toggled(Toggled(s, key), key);
    forall i | 0 <= i < |s| ensures r[i] == s[i] {
      assert r[i].(checked := s[i].checked) == s[i];
    }
  }

  /** Toggling keeps every url in place, so it keeps a store free of duplicates. */
  lemma ToggledKeepsUnique(s: seq<Record>, key: string)
    requires UniqueUrls(s)
    ensures UniqueUrls(Toggled(s, key))
  {
    var r := Toggled(s, key);
    forall i | 0 <= i < |s| ensures r[i].url == s[i].url {
      assert r[i].(checked := s[i].checked) == s[i];
    }
  }

  /** The loop of the checkbox handler: copy every line, negating `checked` on the
      lines whose url is `key`. */
  method ToggleLines(file: seq<Record>, key: string) returns (lines: seq<Record>)
    ensures lines == Toggled(file, key)
  {
    lines := [];
    for i := 0 to |file|
      invariant lines == Toggled(file[..i], key)
    {
      assert file[..i + 1][..i] == file[..i];
      var line := file[i];
      if line.url == key {
        if line.checked {
          line := line.(checked := false);
        } else {
          line := line.(checked := true);
        }
      }
      lines := lines + [line];
    }
    assert file[..|file|] == file;
  }
}
