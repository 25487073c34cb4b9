/**
 Artikel.py `cli_run` in headless mode: which posts are scraped. An explicit,
 comma-separated list of links overrides `select_all`; otherwise either every
 post or the first fifty are taken. The chosen links are then recorded as the
 progress file's `selected` list, scraped, and written out as parts in
 selection order.
 */
module Selection {
  import opened Common
  import opened Text
  import Pipeline
  import Parts

  /** How `cli_run` ends: no posts at all, none of the requested links found, or a selection to scrape. */
  datatype Choice = NoPosts | NotFound | Chosen(selected: seq<Post>)

  /** The default selection size when neither an explicit list nor `select_all` is given. */
  const DefaultCount := 50

  /** `if selected_links_env:` — given and not the empty string. */
  predicate Explicit(env: Option<string>) {
    env.Some? && env.value != ""
  }

  /** Each comma-separated piece with surrounding whitespace stripped, in order. */
  function StrippedPieces(env: string): (r: seq<string>)
    ensures |r| == |Split(env, ',')|
    ensures forall i :: 0 <= i < |r| ==> r[i] == Strip(Split(env, ',')[i])
  {
    var pieces := Split(env, ',');
    seq(|pieces|, i requires 0 <= i < |pieces| => Strip(pieces[i]))
  }

  /** `wanted = [x.strip() for x in selected_links_env.split(",") if x.strip()]`. */
  function Wanted(env: string): (r: seq<string>)
    ensures forall w :: w in r <==> w in StrippedPieces(env) && w != ""
  {
    Filter(StrippedPieces(env), (w: string) => w != "")
  }

  /** The wanted links are non-empty and carry no surrounding whitespace. */
  lemma WantedClean(env: string)
    ensures forall w :: w in Wanted(env) ==> w != "" && Strip(w) == w
  {
    var ps := Split(env, ',');
    forall w | w in Wanted(env)
      ensures w != "" && Strip(w) == w
    {
      var i :| 0 <= i < |StrippedPieces(env)| && StrippedPieces(env)[i] == w;
      TrimIdempotent(ps[i], IsSpace);
    }
  }

  /** Writing clean links joined by commas and reading them back gives the
      same links, in the same order. */
  lemma WantedRoundTrip(links: seq<string>)
    requires |links| >= 1
    requires forall i :: 0 <= i < |links| ==> links[i] != "" && ',' !in links[i] && Strip(links[i]) == links[i]
    ensures Wanted(Join(links, ',')) == links
  {
    var env := Join(links, ',');
    SplitJoin(links, ',');
    assert StrippedPieces(env) == links;
    FilterAll(links, (w: string) => w != "");
  }

  /** The explicit-list loop: the posts whose link is wanted, in posts order. */
  function Pick(posts: seq<Post>, wanted: seq<string>): (r: seq<Post>)
    ensures forall p :: p in r <==> p in posts && p.link in wanted
    ensures r == [] <==> forall i :: 0 <= i < |posts| ==> posts[i].link !in wanted
  {
    Filter(posts, (p: Post) => p.link in wanted)
  }

  /** The selection `cli_run` makes from the feed's posts. */
  function Choose(posts: seq<Post>, env: Option<string>, selectAll: bool): (c: Choice)
    ensures c == NoPosts <==> posts == []
    ensures c == NotFound <==> posts != [] && Explicit(env)
                               && forall i :: 0 <= i < |posts| ==> posts[i].link !in Wanted(env.value)
    ensures c.Chosen? && Explicit(env) ==> c.selected == Pick(posts, Wanted(env.value))
    ensures c.Chosen? && !Explicit(env) && selectAll ==> c.selected == posts
    ensures c.Chosen? && !Explicit(env) && !selectAll ==> c.selected == posts[..Min(DefaultCount, |posts|)]
    ensures c.Chosen? ==> c.selected != []
  {
    if posts == [] then NoPosts
    else if Explicit(env) then
      var picked := Pick(posts, Wanted(env.value));
      if picked == [] then NotFound else Chosen(picked)
    else if selectAll then Chosen(posts)
    else Chosen(posts[..Min(DefaultCount, |posts|)])
  }

  /** An explicit list picks exactly the posts whose link was asked for, in
      the feed's order and with the feed's multiplicities; links asked for but
      not in the feed are ignored. */
  lemma ExplicitChoice(posts: seq<Post>, wanted: seq<string>)
    ensures var sel := Pick(posts, wanted);
      && Subseq(sel, posts)
      && (forall p :: multiset(sel)[p] == if p.link in wanted then multiset(posts)[p] else 0)
  {
    FilterKeepsOrder(posts, (p: Post) => p.link in wanted);
  }

  /** Without a list, the selection is a prefix of the posts: all of them, or the first fifty. */
  lemma DefaultChoice(posts: seq<Post>, env: Option<string>, selectAll: bool)
    requires !Explicit(env) && posts != []
    ensures var sel := Choose(posts, env, selectAll).selected;
      && sel == posts[..|sel|]
      && |sel| == if selectAll then |posts| else Min(DefaultCount, |posts|)
  {
  }

  /** What a headless run leaves behind once posts were chosen: the progress
      file's `selected` links, the scrape's result, and the part files built
      from the selected links in order. */
  datatype Headless = Headless(selectedLinks: seq<string>, scrape: Pipeline.Run, parts: Option<seq<Parts.File>>)

  /** `cli_run` after the selection: store the links, scrape them, build the
      parts from the returned cache. The progress file's `selected` field is
      the selected links in order; the scrape submits exactly the uncached
      selected posts; `build_html_parts` raises for a part size of 0 and
      otherwise writes ceil(n/size) part files for a positive size. */
  function RunSelected(selected: seq<Post>, loaded: map<string, string>, cs: seq<Pipeline.Completion>,
                       every: int, size: int, prefix: string): (h: Headless)
    ensures |h.selectedLinks| == |selected| && forall i :: 0 <= i < |selected| ==> h.selectedLinks[i] == selected[i].link
    ensures h.scrape.submitted == Pipeline.Worklist(selected, loaded)
    ensures h.parts.None? <==> size == 0
    ensures size >= 1 ==> h.parts.Some? && |h.parts.value| == Parts.Ceil(|selected|, size)
  {
    var run := Pipeline.Scrape(selected, loaded, cs, every);
    Headless(Links(selected), run, Parts.BuildHtmlParts(Links(selected), run.cache, size, prefix))
  }

  /** The part files, read in order, show one entry per selected link in
      selection order. */
  lemma RunSelectedInOrder(selected: seq<Post>, loaded: map<string, string>, cs: seq<Pipeline.Completion>,
                           every: int, size: nat, prefix: string)
    requires size >= 1
    ensures var h := RunSelected(selected, loaded, cs, every, size, prefix);
      Parts.Bodies(Parts.Chunks(h.selectedLinks, size), h.scrape.cache)
        == Concat(Parts.Rendered(h.selectedLinks, h.scrape.cache))
  {
    var h := RunSelected(selected, loaded, cs, every, size, prefix);
    Parts.PartsKeepOrder(h.selectedLinks, size, h.scrape.cache);
  }

  /** A selected link is missing from the returned cache exactly when it was
      neither loaded nor stored by a handled completion. */
  lemma RunSelectedPending(selected: seq<Post>, loaded: map<string, string>, cs: seq<Pipeline.Completion>,
                           every: int, size: int, prefix: string, l: string)
    ensures var h := RunSelected(selected, loaded, cs, every, size, prefix);
      var stored := if h.scrape.submitted == [] then {} else Pipeline.Stored(Pipeline.Taken(cs));
      l !in h.scrape.cache <==> l !in loaded && l !in stored
  {
    var run := Pipeline.Scrape(selected, loaded, cs, every);
    assert RunSelected(selected, loaded, cs, every, size, prefix).scrape == run;
  }

  /** Where the scrape meets the part files: selected link `i` is written into
      part file `i // size + 1`, as its cached snippet, or as the placeholder
      when it is not cached or its cached snippet is empty. */
  lemma RunSelectedShows(selected: seq<Post>, loaded: map<string, string>, cs: seq<Pipeline.Completion>,
                         every: int, size: nat, prefix: string, i: nat)
    requires size >= 1 && i < |selected|
    ensures var h := RunSelected(selected, loaded, cs, every, size, prefix);
      var l := selected[i].link;
      var cache := h.scrape.cache;
      && h.parts.Some? && 0 <= i / size < |h.parts.value|
      && h.parts.value[i / size].name == prefix + NatToString(i / size + 1) + ".html"
      && Contains(h.parts.value[i / size].content,
                  if l !in cache || cache[l] == "" then Parts.Placeholder(l) else cache[l])
  {
    var h := RunSelected(selected, loaded, cs, every, size, prefix);
    Parts.PartFor(h.selectedLinks, h.scrape.cache, size, prefix, i);
  }

  /** A run that is not stopped and stores only non-empty snippets, over a
      cache holding none empty, writes every selected link's own snippet:
      no selected link is rendered as the placeholder, and by
      `RunSelectedShows` its snippet is in its part file. */
  lemma RunSelectedComplete(selected: seq<Post>, loaded: map<string, string>, cs: seq<Pipeline.Completion>,
                            every: int, size: nat, prefix: string)
    requires size >= 1
    requires Pipeline.AsCompleted(cs, Pipeline.Worklist(selected, loaded))
    requires forall i :: 0 <= i < |cs| ==> !cs[i].stopSeen
    requires forall i :: 0 <= i < |cs| && cs[i].result.Returned? && cs[i].result.snippet.Some? ==> cs[i].result.snippet.value != ""
    requires Pipeline.Filled(loaded)
    ensures var h := RunSelected(selected, loaded, cs, every, size, prefix);
      && h.parts.Some? && |h.parts.value| == Parts.Ceil(|selected|, size)
      && forall i :: 0 <= i < |selected| ==>
           && selected[i].link in h.scrape.cache
           && h.scrape.cache[selected[i].link] != ""
           && Parts.LinkHtml(selected[i].link, h.scrape.cache) == h.scrape.cache[selected[i].link]
  {
    var run := Pipeline.Scrape(selected, loaded, cs, every);
    assert RunSelected(selected, loaded, cs, every, size, prefix).scrape == run;
    Pipeline.ScrapeFillsSelection(selected, loaded, cs, every);
  }
}
