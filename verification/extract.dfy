/**
 Content extraction as every scraper variant does it: take the inner HTML of
 the first container found among an ordered list of candidate selectors,
 fall back (in some variants) to the page body, and finally to a literal
 marker. The HTML parser is abstracted: a `Page` records, for each selector a
 variant asks about, the decoded contents of the first matching element.
 BeautifulSoup tags are always truthy, so `find(a) or find(b)` is "the first
 one present".
 */
module Extract {
  import opened Common
  import opened Text

  /** What the parser reports about one fetched page; each field is the
      `decode_contents()` of the first matching element, or None when absent. */
  datatype Page = Page(
    title: Option<string>,         // soup.title.text
    postBody: Option<string>,      // div.post-body
    entryContent: Option<string>,  // div.entry-content
    article: Option<string>,       // article
    postBodyId: Option<string>,    // div#post-body
    body: Option<string>)          // body

  /** The outcome of `requests.get`: a response (any status), or an exception
      with its message. A response's `url` is `Response.url`: the URL that
      answered, after redirects and `requests`' URL preparation, which need
      not be the link that was requested. */
  datatype HttpOutcome = Response(status: int, reason: string, url: string, page: Page) | Raised(message: string)

  /** The statuses for which `raise_for_status()` raises. */
  predicate IsHttpError(status: int) {
    400 <= status < 600
  }

  /** `r.raise_for_status()`: a 4xx/5xx response becomes an exception whose
      message is the one `requests` builds from the response's own URL;
      anything else passes through. */
  function RaiseForStatus(o: HttpOutcome): (r: HttpOutcome)
    ensures r.Raised? <==> o.Raised? || IsHttpError(o.status)
    ensures r.Response? ==> r == o
    ensures o.Raised? ==> r == o
    ensures o.Response? && IsHttpError(o.status) ==> Contains(r.message, o.url)
  {
    match o
    case Raised(_) => o
    case Response(status, reason, url, _) =>
      if 400 <= status < 600 then
        var kind := if status < 500 then " Client Error: " else " Server Error: ";
        var msg := NatToString(status) + kind + reason + " for url: ";
        ContainsMiddle(msg, url, "");
        assert msg + url + "" == msg + url;
        Raised(msg + url)
      else o
  }

  /** The first present candidate (Python's chained `or`). */
  function FirstPresent(cands: seq<Option<string>>): (r: Option<string>)
    ensures r.None? <==> forall i :: 0 <= i < |cands| ==> cands[i].None?
    ensures r.Some? ==> exists i :: 0 <= i < |cands| && cands[i] == r
                                  && forall j :: 0 <= j < i ==> cands[j].None?
    decreases |cands|
  {
    if cands == [] then None
    else if cands[0].Some? then cands[0]
    else
      var r := FirstPresent(cands[1..]);
      assert forall i :: 1 <= i < |cands| ==> cands[i] == cands[1..][i - 1];
      r
  }

  // ---------------------------------------------------------------- Artikel.py

  const ArtikelNoContent := "(Gagal ambil isi)"

  /** Artikel.py `fetch_post_content`: post-body, entry-content, article,
      `#post-body`, else the whole body, else the literal marker. */
  function ArtikelContent(p: Page): (c: string)
    ensures p.postBody.Some? ==> c == p.postBody.value
    ensures p.postBody.None? && p.entryContent.Some? ==> c == p.entryContent.value
    ensures p.postBody.None? && p.entryContent.None? && p.article.Some? ==> c == p.article.value
    ensures p.postBody.None? && p.entryContent.None? && p.article.None? && p.postBodyId.Some?
            ==> c == p.postBodyId.value
    ensures p.postBody.None? && p.entryContent.None? && p.article.None? && p.postBodyId.None?
            ==> c == p.body.GetOr(ArtikelNoContent)
  {
    var cands := [p.postBody, p.entryContent, p.article, p.postBodyId];
    match FirstPresent(cands)
    case Some(inner) =>
      assert cands[0] == p.postBody && cands[1] == p.entryContent && cands[2] == p.article;
      inner
    case None =>
      assert cands[0] == p.postBody && cands[1] == p.entryContent;
      assert cands[2] == p.article && cands[3] == p.postBodyId;
      p.body.GetOr(ArtikelNoContent)
  }

  /** The shape of both Artikel.py cards: the title heading, a middle part, and a link back to the source. */
  function Card(title: string, middle: string, link: string): string {
    "<div class='post'><h2>" + title + middle
    + "<a class='source' href='" + link + "' target='_blank'>\U{1F517} Lihat Asli</a></div>\n"
  }

  /** The card Artikel.py writes for a fetched post. */
  function PostCard(title: string, inner: string, link: string): string {
    Card(title, "</h2>" + inner, link)
  }

  /** The card Artikel.py writes when fetching raised. */
  function ErrorCard(title: string, message: string, link: string): string {
    Card(title, "</h2><p>(Error ambil isi: " + message + ")</p>", link)
  }

  /** Artikel.py `fetch_post_content(session, title, link)`, given whether the
      stop flag is set and what the request produced. It is total: it yields
      None exactly when stop was requested, and otherwise a card naming the
      title and the link, the error card when the request or the status check
      raised. */
  function FetchPostContent(title: string, link: string, stop: bool, o: HttpOutcome): (r: Option<string>)
    ensures r.None? <==> stop
    ensures r.Some? ==> Contains(r.value, title) && Contains(r.value, link)
    ensures r.Some? && RaiseForStatus(o).Response? ==> r.value == PostCard(title, ArtikelContent(o.page), link)
    ensures r.Some? && RaiseForStatus(o).Raised?
            ==> r.value == ErrorCard(title, RaiseForStatus(o).message, link)
  {
    if stop then None
    else
      match RaiseForStatus(o)
      case Response(_, _, _, page) =>
        var inner := ArtikelContent(page);
        CardMentions(title, "</h2>" + inner, link);
        Some(PostCard(title, inner, link))
      case Raised(msg) =>
        CardMentions(title, "</h2><p>(Error ambil isi: " + msg + ")</p>", link);
        Some(ErrorCard(title, msg, link))
  }

  /** A card names its title and its link. */
  lemma CardMentions(title: string, middle: string, link: string)
    ensures Contains(Card(title, middle, link), title) && Contains(Card(title, middle, link), link)
  {
    var head := "<div class='post'><h2>";
    var anchor := "<a class='source' href='";
    var tail := "' target='_blank'>\U{1F517} Lihat Asli</a></div>\n";
    ContainsEnd(head, title);
    ContainsExtend(head + title, title, middle);
    ContainsExtend(head + title + middle, title, anchor);
    ContainsExtend(head + title + middle + anchor, title, link);
    ContainsExtend(head + title + middle + anchor + link, title, tail);
    ContainsMiddle(head + title + middle + anchor, link, tail);
  }

  // ------------------------------------------------------- daily_aggregator.py

  const DailyNoContent := "<p>(Gagal ambil isi)</p>"

  /** daily_aggregator.py `fetch_article`: post-body, entry-content, article, else the marker. */
  function DailyContent(p: Page): (c: string)
    ensures p.postBody.Some? ==> c == p.postBody.value
    ensures p.postBody.None? && p.entryContent.Some? ==> c == p.entryContent.value
    ensures p.postBody.None? && p.entryContent.None? && p.article.Some? ==> c == p.article.value
    ensures p.postBody.None? && p.entryContent.None? && p.article.None? ==> c == DailyNoContent
  {
    var cands := [p.postBody, p.entryContent, p.article];
    assert cands[0] == p.postBody && cands[1] == p.entryContent && cands[2] == p.article;
    FirstPresent(cands).GetOr(DailyNoContent)
  }

  /** The snippet daily_aggregator.py keeps when fetching raised. */
  function ArticleFailure(link: string): string {
    "<hr><p>Gagal ambil: " + link + "</p>"
  }

  /** daily_aggregator.py `fetch_article(link)`: never fails. A fetched page
      gives a section with its title (default "Tanpa Judul") and content; an
      exception, including a 4xx/5xx status, gives the failure line, and only
      then. Either way the link is in the snippet. */
  function ArticleHtml(link: string, o: HttpOutcome): (r: string)
    ensures r == ArticleFailure(link) <==> RaiseForStatus(o).Raised?
    ensures RaiseForStatus(o).Response? ==>
              r == "<hr>\n<h2>" + o.page.title.GetOr("Tanpa Judul") + "</h2>\n" + DailyContent(o.page)
                   + "\n<p><a href='" + link + "' target='_blank'>\U{1F517} Sumber</a></p>"
    ensures Contains(r, link)
  {
    match RaiseForStatus(o)
    case Response(_, _, _, page) =>
      var pre := "<hr>\n<h2>" + page.title.GetOr("Tanpa Judul") + "</h2>\n" + DailyContent(page) + "\n<p><a href='";
      var post := "' target='_blank'>\U{1F517} Sumber</a></p>";
      ContainsMiddle(pre, link, post);
      var r := pre + link + post;
      assert r[4] == '\n' && ArticleFailure(link)[4] == '<';
      r
    case Raised(_) =>
      ContainsMiddle("<hr><p>Gagal ambil: ", link, "</p>");
      ArticleFailure(link)
  }

  // ---------------------------------------------------- tools/scraper_stream.py

  const StreamNoContent := "<p>(Kosong)</p>"

  /** tools/scraper_stream.py: post-body, else article; the found contents go
      through the cleaner, the marker does not. */
  function StreamContent(p: Page, clean: string -> string): (c: string)
    ensures p.postBody.Some? ==> c == clean(p.postBody.value)
    ensures p.postBody.None? && p.article.Some? ==> c == clean(p.article.value)
    ensures p.postBody.None? && p.article.None? ==> c == StreamNoContent
  {
    var cands := [p.postBody, p.article];
    assert cands[0] == p.postBody && cands[1] == p.article;
    match FirstPresent(cands)
    case Some(inner) => clean(inner)
    case None => StreamNoContent
  }

  /** The block tools/scraper_stream.py appends for one link. There is no
      status check, so any response, 4xx/5xx included, yields a block; only
      an exception yields none. */
  function StreamBlock(link: string, o: HttpOutcome, clean: string -> string): (r: Option<string>)
    ensures r.None? <==> o.Raised?
    ensures r.Some? ==> r.value == "<hr><h2>" + o.page.title.GetOr("Tanpa Judul") + "</h2>"
                                   + StreamContent(o.page, clean) + "<a href='" + link + "'>Sumber</a>"
    ensures r.Some? ==> Contains(r.value, link)
  {
    match o
    case Raised(_) => None
    case Response(_, _, _, page) =>
      var pre := "<hr><h2>" + page.title.GetOr("Tanpa Judul") + "</h2>" + StreamContent(page, clean) + "<a href='";
      ContainsMiddle(pre, link, "'>Sumber</a>");
      Some(pre + link + "'>Sumber</a>")
  }

  // ----------------------------------------------------------------- artikel.py

  const QueueNoContent := "<p>Gagal ambil konten</p>"

  /** artikel.py `process_one`: post-body, entry-content, article, else the marker. */
  function QueueContent(p: Page): (c: string)
    ensures p.postBody.Some? ==> c == p.postBody.value
    ensures p.postBody.None? && p.entryContent.Some? ==> c == p.entryContent.value
    ensures p.postBody.None? && p.entryContent.None? && p.article.Some? ==> c == p.article.value
    ensures p.postBody.None? && p.entryContent.None? && p.article.None? ==> c == QueueNoContent
  {
    var cands := [p.postBody, p.entryContent, p.article];
    assert cands[0] == p.postBody && cands[1] == p.entryContent && cands[2] == p.article;
    FirstPresent(cands).GetOr(QueueNoContent)
  }
}
