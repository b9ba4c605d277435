/** `github_pagination`: the parser of GitHub's `Link` response header,
    which lists related pages as `<url>; rel="next", <url>; rel="last"`.
    The same function is defined in dougerino.py and in githuberino.py. */
module LinkHeader {
  import opened Values
  import opened Strings

  /** A value of the result dictionary. A page defaults to the integer 0 and
      a URL to None; a parsed entry stores strings for both. */
  datatype LinkValue = IntValue(n: int) | NoneValue | StrValue(s: string)

  type Links = map<string, LinkValue>

  /** The four relations the dictionary starts with. */
  const Relations: seq<string> := ["first", "prev", "next", "last"]

  function PageKey(rel: string): string
  {
    rel + "page"
  }

  function UrlKey(rel: string): string
  {
    rel + "URL"
  }

  /** The dictionary before any entry is parsed. */
  function Defaults(): Links
  {
    map[
      "firstpage" := IntValue(0), "firstURL" := NoneValue,
      "prevpage" := IntValue(0), "prevURL" := NoneValue,
      "nextpage" := IntValue(0), "nextURL" := NoneValue,
      "lastpage" := IntValue(0), "lastURL" := NoneValue]
  }

  /** The argument: a header string, or a response object whose headers may
      or may not hold `Link`. */
  datatype LinkSource = HeaderText(text: string) | ResponseLink(link: Option<string>)

  /** The relation name of one entry: the text after the last `=` of the
      part after the last `;`, stripped, without its enclosing quotes. */
  function Relation(link: string): string
  {
    DropEnds(Strip(AfterLast(AfterLast(link, ';'), '=')))
  }

  /** The URL of one entry: the part before the first `;`, stripped, without
      its enclosing angle brackets. */
  function Url(link: string): string
  {
    DropEnds(Strip(BeforeFirst(link, ';')))
  }

  /** The page number of a URL: the text after the last `=` of the part
      after the last `?`, stripped. It is not checked to be numeric. */
  function Page(url: string): string
  {
    Strip(AfterLast(AfterLast(url, '?'), '='))
  }

  /** What one comma-separated entry contributes. */
  datatype Entry = Entry(rel: string, url: string, page: string)

  function ParseEntry(link: string): Entry
  {
    var url := Url(link);
    Entry(Relation(link), url, Page(url))
  }

  function EntriesOf(links: seq<string>): (entries: seq<Entry>)
    ensures |entries| == |links|
    ensures forall j :: 0 <= j < |links| ==> entries[j] == ParseEntry(links[j])
  {
    seq(|links|, j requires 0 <= j < |links| => ParseEntry(links[j]))
  }

  /** One pass of the loop body: store the entry's page and URL. */
  function Record(m: Links, e: Entry): Links
  {
    m[PageKey(e.rel) := StrValue(e.page)][UrlKey(e.rel) := StrValue(e.url)]
  }

  /** The dictionary after the loop has recorded every entry, in order,
      starting from `m`. */
  function RecordAll(m: Links, entries: seq<Entry>): Links
  {
    if entries == [] then m
    else Record(RecordAll(m, entries[..|entries| - 1]), entries[|entries| - 1])
  }

  /** The comma-separated entries of the source's Link header; none when a
      response has no Link header. */
  function EntryTexts(source: LinkSource): seq<string>
  {
    match source
    case HeaderText(text) => Split(text, ',')
    case ResponseLink(None) => []
    case ResponseLink(Some(text)) => Split(text, ',')
  }

  lemma RecordNext(m: Links, entries: seq<Entry>, i: nat)
    requires i < |entries|
    ensures RecordAll(m, entries[..i + 1]) == Record(RecordAll(m, entries[..i]), entries[i])
  {
    assert entries[..i + 1][..i] == entries[..i];
  }

  /** What `github_pagination` returns for a source. */
  function Parsed(source: LinkSource): Links
  {
    RecordAll(Defaults(), EntriesOf(EntryTexts(source)))
  }

  /** `github_pagination(link_header)`. */
  method Pagination(source: LinkSource) returns (retval: Links)
    ensures retval == Parsed(source)
  {
    retval := Defaults();
    var linkString: string;
    match source {
      case HeaderText(text) =>
        linkString := text;
      case ResponseLink(link) =>
        if link.None? {
          return;  // no Link header: nothing to parse
        }
        linkString := link.value;
    }
    var links := Split(linkString, ',');
    ghost var entries := EntriesOf(links);
    assert links == EntryTexts(source);
    for i := 0 to |links|
      invariant retval == RecordAll(Defaults(), entries[..i])
    {
      var link := links[i];
      var linktype := Relation(link);
      var url := Url(link);
      var pageno := Page(url);
      RecordNext(Defaults(), entries, i);
      assert entries[i] == Entry(linktype, url, pageno);
      retval := retval[linktype + "page" := StrValue(pageno)];
      retval := retval[linktype + "URL" := StrValue(url)];
    }
    assert entries[..|entries|] == entries;
  }

  /** A page key and a URL key never coincide, and each names one relation. */
  lemma KeysDistinct(a: string, b: string)
    ensures PageKey(a) != UrlKey(b)
    ensures PageKey(a) == PageKey(b) ==> a == b
    ensures UrlKey(a) == UrlKey(b) ==> a == b
  {
    assert PageKey(a)[|PageKey(a)| - 1] == 'e';
    assert UrlKey(b)[|UrlKey(b)| - 1] == 'L';
    if PageKey(a) == PageKey(b) {
      assert a == PageKey(a)[..|a|] && b == PageKey(b)[..|b|];
    }
    if UrlKey(a) == UrlKey(b) {
      assert a == UrlKey(a)[..|a|] && b == UrlKey(b)[..|b|];
    }
  }

  /** The keys of the result: the starting keys plus a page key and a URL
      key for the relation of every entry, known or not. */
  lemma {:induction false} RecordedKeys(m: Links, entries: seq<Entry>)
    ensures RecordAll(m, entries).Keys ==
      m.Keys + (set e | e in entries :: PageKey(e.rel)) + (set e | e in entries :: UrlKey(e.rel))
    decreases |entries|
  {
    if entries != [] {
      var n := |entries| - 1;
      RecordedKeys(m, entries[..n]);
      assert entries == entries[..n] + [entries[n]];
    }
  }

  /** A relation that no entry names keeps the values it started with. */
  lemma {:induction false} UnnamedRelationUnchanged(m: Links, entries: seq<Entry>, rel: string)
    requires forall j :: 0 <= j < |entries| ==> entries[j].rel != rel
    ensures PageKey(rel) in RecordAll(m, entries) <==> PageKey(rel) in m
    ensures UrlKey(rel) in RecordAll(m, entries) <==> UrlKey(rel) in m
    ensures PageKey(rel) in m ==> RecordAll(m, entries)[PageKey(rel)] == m[PageKey(rel)]
    ensures UrlKey(rel) in m ==> RecordAll(m, entries)[UrlKey(rel)] == m[UrlKey(rel)]
    decreases |entries|
  {
    if entries != [] {
      var n := |entries| - 1;
      UnnamedRelationUnchanged(m, entries[..n], rel);
      KeysDistinct(rel, entries[n].rel);
      KeysDistinct(entries[n].rel, rel);
    }
  }

  /** The last entry naming a relation decides its page and URL. */
  lemma {:induction false} LastRecordWins(m: Links, entries: seq<Entry>, i: nat)
    requires i < |entries|
    requires forall j :: i < j < |entries| ==> entries[j].rel != entries[i].rel
    ensures UrlKey(entries[i].rel) in RecordAll(m, entries) && PageKey(entries[i].rel) in RecordAll(m, entries)
    ensures RecordAll(m, entries)[UrlKey(entries[i].rel)] == StrValue(entries[i].url)
    ensures RecordAll(m, entries)[PageKey(entries[i].rel)] == StrValue(entries[i].page)
    decreases |entries|
  {
    var n := |entries| - 1;
    if i < n {
      LastRecordWins(m, entries[..n], i);
      KeysDistinct(entries[i].rel, entries[n].rel);
      KeysDistinct(entries[n].rel, entries[i].rel);
    } else {
      KeysDistinct(entries[i].rel, entries[i].rel);
    }
  }

  /** Page keys only ever hold the integer 0 or a string, URL keys only None
      or a string. */
  lemma {:induction false} RecordedValueKinds(entries: seq<Entry>, rel: string)
    ensures var r := RecordAll(Defaults(), entries);
      && (PageKey(rel) in r ==> r[PageKey(rel)] == IntValue(0) || r[PageKey(rel)].StrValue?)
      && (UrlKey(rel) in r ==> r[UrlKey(rel)] == NoneValue || r[UrlKey(rel)].StrValue?)
    decreases |entries|
  {
    if entries == [] {
      var p, u := PageKey(rel), UrlKey(rel);
      assert p[|p| - 1] == 'e' && u[|u| - 1] == 'L';
      assert "firstURL"[7] == 'L' && "prevURL"[6] == 'L' && "nextURL"[6] == 'L' && "lastURL"[6] == 'L';
      assert "firstpage"[8] == 'e' && "prevpage"[7] == 'e' && "nextpage"[7] == 'e' && "lastpage"[7] == 'e';
    } else {
      var n := |entries| - 1;
      RecordedValueKinds(entries[..n], rel);
      KeysDistinct(rel, entries[n].rel);
      KeysDistinct(entries[n].rel, rel);
    }
  }

  /** Each of the four relations starts with page 0 and URL None. */
  lemma DefaultsOfRelation(rel: string)
    requires rel in Relations
    ensures PageKey(rel) in Defaults() && Defaults()[PageKey(rel)] == IntValue(0)
    ensures UrlKey(rel) in Defaults() && Defaults()[UrlKey(rel)] == NoneValue
  {
    if rel == "first" {
      assert PageKey(rel) == "firstpage" && UrlKey(rel) == "firstURL";
    } else if rel == "prev" {
      assert PageKey(rel) == "prevpage" && UrlKey(rel) == "prevURL";
    } else if rel == "next" {
      assert PageKey(rel) == "nextpage" && UrlKey(rel) == "nextURL";
    } else {
      assert PageKey(rel) == "lastpage" && UrlKey(rel) == "lastURL";
    }
  }

  /** For any list of entry texts, a known relation that none of them names
      keeps its default page 0 and URL None. */
  lemma EntriesKeepDefaults(links: seq<string>, rel: string)
    requires rel in Relations
    requires forall j :: 0 <= j < |links| ==> Relation(links[j]) != rel
    ensures var r := RecordAll(Defaults(), EntriesOf(links));
      PageKey(rel) in r && r[PageKey(rel)] == IntValue(0) && UrlKey(rel) in r && r[UrlKey(rel)] == NoneValue
  {
    DefaultsOfRelation(rel);
    UnnamedRelationUnchanged(Defaults(), EntriesOf(links), rel);
  }

  /** Without a Link header, or for a known relation the header does not
      name, the dictionary keeps the default page 0 and URL None. */
  lemma AbsentRelationKeepsDefaults(source: LinkSource, rel: string)
    requires rel in Relations
    requires forall j :: 0 <= j < |EntryTexts(source)| ==> Relation(EntryTexts(source)[j]) != rel
    ensures PageKey(rel) in Parsed(source) && Parsed(source)[PageKey(rel)] == IntValue(0)
    ensures UrlKey(rel) in Parsed(source) && Parsed(source)[UrlKey(rel)] == NoneValue
  {
    EntriesKeepDefaults(EntryTexts(source), rel);
  }

  /** For any list of entry texts, the last one naming a relation decides
      that relation's page and URL. */
  lemma EntriesLastWins(links: seq<string>, i: nat)
    requires i < |links|
    requires forall j :: i < j < |links| ==> Relation(links[j]) != Relation(links[i])
    ensures var r := RecordAll(Defaults(), EntriesOf(links)); var link := links[i];
      && UrlKey(Relation(link)) in r && r[UrlKey(Relation(link))] == StrValue(Url(link))
      && PageKey(Relation(link)) in r && r[PageKey(Relation(link))] == StrValue(Page(Url(link)))
  {
    var entries := EntriesOf(links);
    LastRecordWins(Defaults(), entries, i);
  }

  /** The last entry of the header naming a relation decides that
      relation's page and URL, overwriting earlier entries. */
  lemma LastEntryWins(source: LinkSource, i: nat)
    requires i < |EntryTexts(source)|
    requires forall j :: i < j < |EntryTexts(source)| ==>
      Relation(EntryTexts(source)[j]) != Relation(EntryTexts(source)[i])
    ensures var link := EntryTexts(source)[i];
      && UrlKey(Relation(link)) in Parsed(source)
      && Parsed(source)[UrlKey(Relation(link))] == StrValue(Url(link))
      && PageKey(Relation(link)) in Parsed(source)
      && Parsed(source)[PageKey(Relation(link))] == StrValue(Page(Url(link)))
  {
    EntriesLastWins(EntryTexts(source), i);
  }

  /** The result holds the eight default keys plus one page key and one URL
      key per relation named in the header, so an unknown relation adds
      keys of its own; without a header it holds just the eight. */
  lemma ParsedKeys(source: LinkSource)
    ensures var entries := EntriesOf(EntryTexts(source));
      Parsed(source).Keys == Defaults().Keys
        + (set e | e in entries :: PageKey(e.rel))
        + (set e | e in entries :: UrlKey(e.rel))
  {
    RecordedKeys(Defaults(), EntriesOf(EntryTexts(source)));
  }

  /** The eight default keys are always present, so `pagelinks['nextURL']`
      never raises. */
  lemma DefaultKeysKept(source: LinkSource)
    ensures Defaults().Keys <= Parsed(source).Keys
    ensures "nextURL" in Parsed(source)
  {
    ParsedKeys(source);
  }

  /** The URL of the last entry whose relation is `next`, if any. */
  function LastNextUrl(links: seq<string>): Option<string>
  {
    if links == [] then None
    else if Relation(links[|links| - 1]) == "next" then Some(Url(links[|links| - 1]))
    else LastNextUrl(links[..|links| - 1])
  }

  /** The same, over parsed entries. */
  function LastNextEntryUrl(entries: seq<Entry>): Option<string>
  {
    if entries == [] then None
    else if entries[|entries| - 1].rel == "next" then Some(entries[|entries| - 1].url)
    else LastNextEntryUrl(entries[..|entries| - 1])
  }

  lemma {:induction false} LastNextUrlOfEntries(links: seq<string>)
    ensures LastNextEntryUrl(EntriesOf(links)) == LastNextUrl(links)
    decreases |links|
  {
    if links != [] {
      var n := |links| - 1;
      assert EntriesOf(links)[..n] == EntriesOf(links[..n]);
      LastNextUrlOfEntries(links[..n]);
    }
  }

  /** `nextURL` holds the URL of the last `next` entry, and keeps the None
      it started with when no entry is a `next` entry. */
  lemma {:induction false} RecordedNextUrl(m: Links, entries: seq<Entry>)
    requires "nextURL" in m && m["nextURL"] == NoneValue
    ensures "nextURL" in RecordAll(m, entries)
    ensures RecordAll(m, entries)["nextURL"] ==
      match LastNextEntryUrl(entries) case None => NoneValue case Some(url) => StrValue(url)
    decreases |entries|
  {
    if entries != [] {
      var n := |entries| - 1;
      RecordedNextUrl(m, entries[..n]);
      KeysDistinct(entries[n].rel, "next");
      KeysDistinct("next", entries[n].rel);
      assert UrlKey("next") == "nextURL";
    }
  }

  lemma ParsedNextUrl(source: LinkSource)
    ensures "nextURL" in Parsed(source)
    ensures Parsed(source)["nextURL"] ==
      match LastNextUrl(EntryTexts(source)) case None => NoneValue case Some(url) => StrValue(url)
  {
    DefaultsOfRelation("next");
    assert UrlKey("next") == "nextURL";
    RecordedNextUrl(Defaults(), EntriesOf(EntryTexts(source)));
    LastNextUrlOfEntries(EntryTexts(source));
  }

  /** `nextURL` (and every other URL key) is None or a string, and every
      page key is 0 or a string. */
  lemma ParsedValueKinds(source: LinkSource, rel: string)
    ensures var r := Parsed(source);
      && (PageKey(rel) in r ==> r[PageKey(rel)] == IntValue(0) || r[PageKey(rel)].StrValue?)
      && (UrlKey(rel) in r ==> r[UrlKey(rel)] == NoneValue || r[UrlKey(rel)].StrValue?)
  {
    RecordedValueKinds(EntriesOf(EntryTexts(source)), rel);
  }

  /** What each entry contributes, stated on the entry's text: the URL is the
      text before the first `;`, stripped and without its first and last
      characters; the relation is the text after the last `=` of the text
      after the last `;`, likewise; the page is the stripped text after the
      last `=` of the URL's text after its last `?`. */
  lemma EntryFields(link: string)
    ensures forall p :: IsTextBefore(p, link, ';') ==> Url(link) == DropEnds(Strip(p))
    ensures forall q, r :: IsTextAfter(q, link, ';') && IsTextAfter(r, q, '=') ==>
      Relation(link) == DropEnds(Strip(r))
    ensures forall q, r :: IsTextAfter(q, Url(link), '?') && IsTextAfter(r, q, '=') ==>
      Page(Url(link)) == Strip(r)
  {
    BeforeFirstMeaning(link, ';');
    AfterLastMeaning(link, ';');
    AfterLastMeaning(AfterLast(link, ';'), '=');
    AfterLastMeaning(Url(link), '?');
    AfterLastMeaning(AfterLast(Url(link), '?'), '=');
  }
}
