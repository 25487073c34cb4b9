/**
 daily_aggregator.py: one run takes the blog at the head of the queue, lists
 its links from the RSS feed, produces one snippet per link (from the blog's
 snippet cache when the link is a key, else by fetching it), writes the part
 pages and the index, and moves the blog to the done list.
 */
module Daily {
  import opened Common
  import opened Text
  import opened Extract
  import Parts

  // ------------------------------------------------------------ fetch_all_links

  /** One RSS batch request: raised, or a response with its status and, per
      `<item>`, the `findtext("link")` result (None for the items when the
      body is not well-formed XML: `ET.fromstring` raises). */
  datatype RssOutcome = RssRaised | RssReply(status: int, items: Option<seq<Option<string>>>)

  /** `if link: links.append(link)` over one batch. */
  function ItemLinks(items: seq<Option<string>>): (r: seq<string>)
    ensures forall l :: l in r <==> l != "" && exists i :: 0 <= i < |items| && items[i] == Some(l)
    decreases |items|
  {
    if items == [] then []
    else
      var rest := ItemLinks(items[1..]);
      assert forall i :: 1 <= i < |items| ==> items[i] == items[1..][i - 1];
      if items[0].Some? && items[0].value != "" then [items[0].value] + rest else rest
  }

  /** `fetch_all_links`, given the answers in the order the loop receives
      them. A raised request or parse is retried at the same start index, so
      it consumes an answer without ending the loop; a non-200 status or an
      empty batch ends it. None: the answers ran out while the loop was still
      running, which is how a feed that keeps failing shows here. */
  function FetchAllLinks(links: seq<string>, answers: seq<RssOutcome>): (r: Option<seq<string>>)
    ensures r.Some? ==> |links| <= |r.value| && r.value[..|links|] == links
    decreases |answers|
  {
    if answers == [] then None
    else match answers[0]
      case RssRaised => FetchAllLinks(links, answers[1..])
      case RssReply(status, items) =>
        if status != 200 then Some(links)
        else if items.None? then FetchAllLinks(links, answers[1..])
        else if items.value == [] then Some(links)
        else
          var r := FetchAllLinks(links + ItemLinks(items.value), answers[1..]);
          assert r.Some? ==> r.value[..|links|] == r.value[..|links + ItemLinks(items.value)|][..|links|];
          r
  }

  /** An answer that ends the loop: a non-200 status, or a parsed batch with no items. */
  predicate Ends(a: RssOutcome) {
    a.RssReply? && (a.status != 200 || a.items == Some([]))
  }

  /** The links one answer contributes: its item links when it is a parsed
      200 batch, none when it raised or did not parse. */
  function BatchLinks(a: RssOutcome): seq<string> {
    if a.RssReply? && a.status == 200 && a.items.Some? then ItemLinks(a.items.value) else []
  }

  /** Each answer's links, answer by answer. */
  function Batches(answers: seq<RssOutcome>): (bs: seq<seq<string>>)
    ensures |bs| == |answers| && forall i :: 0 <= i < |answers| ==> bs[i] == BatchLinks(answers[i])
  {
    seq(|answers|, i requires 0 <= i < |answers| => BatchLinks(answers[i]))
  }

  /** `n` is the first answer that ends the loop. */
  predicate FirstEnd(answers: seq<RssOutcome>, n: nat) {
    n < |answers| && Ends(answers[n]) && forall i :: 0 <= i < n ==> !Ends(answers[i])
  }

  /** An answer that does not end the loop adds its links and passes on to the next. */
  lemma FetchAllLinksStep(links: seq<string>, answers: seq<RssOutcome>)
    requires answers != [] && !Ends(answers[0])
    ensures FetchAllLinks(links, answers) == FetchAllLinks(links + BatchLinks(answers[0]), answers[1..])
  {
    if !answers[0].RssReply? || answers[0].items.None? {
      assert links + BatchLinks(answers[0]) == links;
    }
  }

  /** The loop ends, rather than running out of answers, exactly when some answer ends it. */
  lemma {:induction false} FetchAllLinksEnds(links: seq<string>, answers: seq<RssOutcome>)
    ensures FetchAllLinks(links, answers).Some? <==> exists i :: 0 <= i < |answers| && Ends(answers[i])
    decreases |answers|
  {
    if answers != [] && !Ends(answers[0]) {
      var tail := answers[1..];
      FetchAllLinksStep(links, answers);
      FetchAllLinksEnds(links + BatchLinks(answers[0]), tail);
      if exists i :: 0 <= i < |answers| && Ends(answers[i]) {
        var i :| 0 <= i < |answers| && Ends(answers[i]);
        assert Ends(tail[i - 1]);
      }
      if exists i :: 0 <= i < |tail| && Ends(tail[i]) {
        var i :| 0 <= i < |tail| && Ends(tail[i]);
        assert Ends(answers[i + 1]);
      }
    }
  }

  /** Gathering `n` answers is gathering the first, then the `n - 1` after it. */
  lemma BatchesCons(links: seq<string>, answers: seq<RssOutcome>, n: nat)
    requires 1 <= n <= |answers|
    ensures links + Flatten(Batches(answers[..n])) == (links + BatchLinks(answers[0])) + Flatten(Batches(answers[1..][..n - 1]))
  {
    assert Batches(answers[..n]) == [BatchLinks(answers[0])] + Batches(answers[1..][..n - 1]);
  }

  /** If the loop first ends at answer `n >= 1`, the first answer does not end it and the rest first end at `n - 1`. */
  lemma FirstEndTail(answers: seq<RssOutcome>, n: nat)
    requires n >= 1 && FirstEnd(answers, n)
    ensures !Ends(answers[0]) && FirstEnd(answers[1..], n - 1)
  {
    assert forall i :: 0 <= i <= n - 1 ==> answers[1..][i] == answers[i + 1];
  }

  /** When the loop ends at answer `n`, the result is the starting links
      followed, in answer order, by the links of every answer before `n`. */
  lemma {:induction false} FetchAllLinksGathers(links: seq<string>, answers: seq<RssOutcome>, n: nat)
    requires FirstEnd(answers, n)
    ensures FetchAllLinks(links, answers) == Some(links + Flatten(Batches(answers[..n])))
    decreases n
  {
    if n == 0 {
      assert answers[..n] == [] && links + [] == links;
    } else {
      FirstEndTail(answers, n);
      FetchAllLinksStep(links, answers);
      FetchAllLinksGathers(links + BatchLinks(answers[0]), answers[1..], n - 1);
      BatchesCons(links, answers, n);
    }
  }

  /** However many answers there are, a feed whose every request raises never ends the loop. */
  lemma {:induction false} FailingFeedNeverEnds(links: seq<string>, answers: seq<RssOutcome>)
    requires forall i :: 0 <= i < |answers| ==> answers[i].RssRaised?
    ensures FetchAllLinks(links, answers).None?
    decreases |answers|
  {
    if answers != [] {
      assert forall i :: 0 <= i < |answers[1..]| ==> answers[1..][i] == answers[i + 1];
      FailingFeedNeverEnds(links, answers[1..]);
    }
  }

  // ----------------------------------------------------------------- harvest

  /** A cache flush inside the loop: the 1-based position of the link just
      fetched and the cache as written. */
  datatype Flush = Flush(at: nat, cache: map<string, string>)

  datatype Harvest = Harvest(snippets: seq<string>, cache: map<string, string>, flushes: seq<Flush>)

  /** The cache after position `link`: unchanged when the link is a key, else with the produced snippet stored. */
  function Store(cache: map<string, string>, link: string, produce: string -> string): map<string, string> {
    if link in cache then cache else cache[link := produce(link)]
  }

  /** The `for i, link in enumerate(links, 1)` loop from position `i` on: a
      cached link reuses its snippet; any other is produced (`fetch_article`),
      stored, and the cache is written when `i % 10 == 0`. A link is produced
      at most once per run, since it is cached from then on. */
  function Harvesting(links: seq<string>, i: nat, cache: map<string, string>, produce: string -> string): (h: Harvest)
    ensures |h.snippets| == |links|
    decreases |links|
  {
    if links == [] then Harvest([], cache, [])
    else
      var cache' := Store(cache, links[0], produce);
      var rest := Harvesting(links[1..], i + 1, cache', produce);
      var flush := if links[0] !in cache && i % 10 == 0 then [Flush(i, cache')] else [];
      Harvest([cache'[links[0]]] + rest.snippets, rest.cache, flush + rest.flushes)
  }

  /** A link is produced at its position when it is neither cached beforehand nor seen earlier in the list. */
  predicate FreshAt(links: seq<string>, keys: set<string>, j: nat)
    requires j < |links|
  {
    links[j] !in keys && links[j] !in links[..j]
  }

  /** Every link becomes a key, and no other key appears. */
  lemma {:induction false} HarvestKeys(links: seq<string>, i: nat, cache: map<string, string>, produce: string -> string)
    ensures Harvesting(links, i, cache, produce).cache.Keys == cache.Keys + set l | l in links
    decreases |links|
  {
    if links != [] {
      HarvestKeys(links[1..], i + 1, Store(cache, links[0], produce), produce);
      assert links == [links[0]] + links[1..];
      assert (set l | l in links) == {links[0]} + set l | l in links[1..];
    }
  }

  /** Entries present beforehand are never overwritten. */
  lemma {:induction false} HarvestKeepsOld(links: seq<string>, i: nat, cache: map<string, string>, produce: string -> string)
    ensures var c := Harvesting(links, i, cache, produce).cache;
      forall k :: k in cache ==> k in c && c[k] == cache[k]
    decreases |links|
  {
    if links != [] {
      HarvestKeepsOld(links[1..], i + 1, Store(cache, links[0], produce), produce);
    }
  }

  /** Every snippet is its link's entry in the final cache: the cached value
      for a cached link, and for a repeated link the first occurrence's snippet. */
  lemma {:induction false} HarvestEntries(links: seq<string>, i: nat, cache: map<string, string>, produce: string -> string)
    ensures var h := Harvesting(links, i, cache, produce);
      forall j :: 0 <= j < |links| ==> links[j] in h.cache && h.snippets[j] == h.cache[links[j]]
    decreases |links|
  {
    if links != [] {
      var h := Harvesting(links, i, cache, produce);
      var cache' := Store(cache, links[0], produce);
      var rest := Harvesting(links[1..], i + 1, cache', produce);
      HarvestEntries(links[1..], i + 1, cache', produce);
      HarvestKeepsOld(links[1..], i + 1, cache', produce);
      assert h.snippets == [cache'[links[0]]] + rest.snippets && h.cache == rest.cache;
      forall j | 0 < j < |links|
        ensures links[j] in h.cache && h.snippets[j] == h.cache[links[j]]
      {
        assert links[j] == links[1..][j - 1] && h.snippets[j] == rest.snippets[j - 1];
      }
    }
  }

  /** A link produced at its position gets the snippet `fetch_article` builds for it. */
  lemma {:induction false} HarvestProduces(links: seq<string>, i: nat, cache: map<string, string>, produce: string -> string)
    ensures var h := Harvesting(links, i, cache, produce);
      forall j :: 0 <= j < |links| && FreshAt(links, cache.Keys, j) ==> h.snippets[j] == produce(links[j])
    decreases |links|
  {
    if links != [] {
      var h := Harvesting(links, i, cache, produce);
      var cache' := Store(cache, links[0], produce);
      var rest := Harvesting(links[1..], i + 1, cache', produce);
      HarvestProduces(links[1..], i + 1, cache', produce);
      assert h.snippets == [cache'[links[0]]] + rest.snippets;
      forall j | 0 < j < |links| && FreshAt(links, cache.Keys, j)
        ensures h.snippets[j] == produce(links[j])
      {
        FreshShift(links, cache.Keys, j);
        assert links[j] == links[1..][j - 1] && h.snippets[j] == rest.snippets[j - 1];
      }
    }
  }

  /** Freshness of a later position, seen from the keys after the first step. */
  lemma FreshShift(links: seq<string>, keys: set<string>, j: nat)
    requires 0 < j < |links|
    ensures FreshAt(links, keys, j) <==> FreshAt(links[1..], keys + {links[0]}, j - 1)
  {
    assert links[j] == links[1..][j - 1];
    assert links[..j] == [links[0]] + links[1..][..j - 1];
  }

  /** Reference for the flush positions: walking the links with the cache's
      key set, a position is a flush point when its link is not yet a key and
      the position is divisible by 10. */
  function FlushPoints(links: seq<string>, i: nat, keys: set<string>): seq<nat>
    decreases |links|
  {
    if links == [] then []
    else (if links[0] !in keys && i % 10 == 0 then [i] else []) + FlushPoints(links[1..], i + 1, keys + {links[0]})
  }

  /** The loop flushes exactly at the flush points, in order. */
  lemma {:induction false} HarvestFlushPoints(links: seq<string>, i: nat, cache: map<string, string>, produce: string -> string)
    ensures var fl := Harvesting(links, i, cache, produce).flushes;
      var pts := FlushPoints(links, i, cache.Keys);
      |fl| == |pts| && forall n :: 0 <= n < |fl| ==> fl[n].at == pts[n]
    decreases |links|
  {
    if links != [] {
      var cache' := Store(cache, links[0], produce);
      assert cache'.Keys == cache.Keys + {links[0]};
      HarvestFlushPoints(links[1..], i + 1, cache', produce);
    }
  }

  /** Flush point `n` is a position divisible by 10 whose link is produced there. */
  lemma {:induction false} PointIsDue(links: seq<string>, i: nat, keys: set<string>, n: nat)
    requires n < |FlushPoints(links, i, keys)|
    ensures var at := FlushPoints(links, i, keys)[n];
      i <= at < i + |links| && at % 10 == 0 && FreshAt(links, keys, at - i)
    decreases |links|
  {
    var pts := FlushPoints(links, i, keys);
    var rest := FlushPoints(links[1..], i + 1, keys + {links[0]});
    var d := |pts| - |rest|;
    if n < d {
      assert pts[n] == i;
      assert links[..0] == [];
    } else {
      assert pts[n] == rest[n - d];
      PointIsDue(links[1..], i + 1, keys + {links[0]}, n - d);
      FreshShift(links, keys, pts[n] - i);
    }
  }

  /** A position divisible by 10 whose link is produced there is flush point `n`. */
  lemma {:induction false} DuePoint(links: seq<string>, i: nat, keys: set<string>, j: nat) returns (n: nat)
    requires j < |links| && (i + j) % 10 == 0 && FreshAt(links, keys, j)
    ensures n < |FlushPoints(links, i, keys)| && FlushPoints(links, i, keys)[n] == i + j
    decreases |links|
  {
    var pts := FlushPoints(links, i, keys);
    var rest := FlushPoints(links[1..], i + 1, keys + {links[0]});
    var d := |pts| - |rest|;
    if j == 0 {
      n := 0;
    } else {
      FreshShift(links, keys, j);
      var m := DuePoint(links[1..], i + 1, keys + {links[0]}, j - 1);
      n := m + d;
      assert pts[n] == rest[m];
    }
  }

  /** Flush points increase. */
  lemma {:induction false} PointsIncrease(links: seq<string>, i: nat, keys: set<string>)
    ensures var pts := FlushPoints(links, i, keys); forall m, n :: 0 <= m < n < |pts| ==> pts[m] < pts[n]
    decreases |links|
  {
    if links != [] {
      var pts := FlushPoints(links, i, keys);
      var rest := FlushPoints(links[1..], i + 1, keys + {links[0]});
      PointsIncrease(links[1..], i + 1, keys + {links[0]});
      var d := |pts| - |rest|;
      forall m, n | 0 <= m < n < |pts|
        ensures pts[m] < pts[n]
      {
        assert pts[n] == rest[n - d];
        PointIsDue(links[1..], i + 1, keys + {links[0]}, n - d);
        if m >= d {
          assert pts[m] == rest[m - d];
        }
      }
    }
  }

  /** Each write of the cache inside the loop follows a produced link at a position divisible by 10. */
  lemma {:induction false} FlushesAreDue(links: seq<string>, cache: map<string, string>, produce: string -> string)
    ensures var fl := Harvesting(links, 1, cache, produce).flushes;
      forall n :: 0 <= n < |fl| ==>
        1 <= fl[n].at <= |links| && fl[n].at % 10 == 0 && FreshAt(links, cache.Keys, fl[n].at - 1)
  {
    var fl := Harvesting(links, 1, cache, produce).flushes;
    HarvestFlushPoints(links, 1, cache, produce);
    forall n | 0 <= n < |fl|
      ensures 1 <= fl[n].at <= |links| && fl[n].at % 10 == 0 && FreshAt(links, cache.Keys, fl[n].at - 1)
    {
      PointIsDue(links, 1, cache.Keys, n);
    }
  }

  /** Each produced link at a position divisible by 10 is followed by a write of the cache. */
  lemma {:induction false} DueFlushesHappen(links: seq<string>, cache: map<string, string>, produce: string -> string)
    ensures var fl := Harvesting(links, 1, cache, produce).flushes;
      forall j :: 0 <= j < |links| && (j + 1) % 10 == 0 && FreshAt(links, cache.Keys, j) ==>
        exists n :: 0 <= n < |fl| && fl[n].at == j + 1
  {
    var fl := Harvesting(links, 1, cache, produce).flushes;
    HarvestFlushPoints(links, 1, cache, produce);
    forall j | 0 <= j < |links| && (j + 1) % 10 == 0 && FreshAt(links, cache.Keys, j)
      ensures exists n :: 0 <= n < |fl| && fl[n].at == j + 1
    {
      var n := DuePoint(links, 1, cache.Keys, j);
      assert fl[n].at == j + 1;
    }
  }

  /** The writes inside the loop come in loop order. */
  lemma {:induction false} FlushesInOrder(links: seq<string>, cache: map<string, string>, produce: string -> string)
    ensures var fl := Harvesting(links, 1, cache, produce).flushes;
      forall m, n :: 0 <= m < n < |fl| ==> fl[m].at < fl[n].at
  {
    HarvestFlushPoints(links, 1, cache, produce);
    PointsIncrease(links, 1, cache.Keys);
  }

  // -------------------------------------------------------------------- main

  /** The persisted queue state: blogs still waiting, blogs done. */
  datatype Queue = Queue(blogs: seq<string>, done: seq<string>)

  /** What `main` does: nothing (empty queue), never finishes (the feed loop
      does not end within the given answers), or completes a blog. */
  datatype DailyRun =
    | Idle
    | Unfinished
    | Ran(queue: Queue, cache: map<string, string>, flushes: seq<Flush>, build: Parts.Build)

  /** daily_aggregator.py `main()`: `cache` is the blog's snippet cache as
      loaded, `answers` the RSS answers and `fetch` the article oracle.
      The final cache write is the `cache` field of the result. */
  function Main(q: Queue, answers: seq<RssOutcome>, cache: map<string, string>, fetch: string -> HttpOutcome): (r: DailyRun)
    ensures q.blogs == [] <==> r.Idle?
    ensures r.Ran? ==> r.queue == Queue(q.blogs[1..], q.done + [q.blogs[0]]) && [q.blogs[0]] + r.queue.blogs == q.blogs
  {
    if q.blogs == [] then Idle
    else match FetchAllLinks([], answers)
      case None => Unfinished
      case Some(links) =>
        var h := Harvesting(links, 1, cache, Produce(fetch));
        Ran(Queue(q.blogs[1..], q.done + [q.blogs[0]]), h.cache, h.flushes, Parts.BuildParts(h.snippets))
  }

  /** `fetch_article` over the article oracle. */
  function Produce(fetch: string -> HttpOutcome): string -> string {
    (l: string) => ArticleHtml(l, fetch(l))
  }

  /** A completed run: the pages are built from one snippet per
      listed link, each its link's final cache entry; the loaded cache
      survives unchanged inside the written one. */
  lemma {:induction false} MainCompletes(q: Queue, answers: seq<RssOutcome>, cache: map<string, string>, fetch: string -> HttpOutcome)
    requires Main(q, answers, cache, fetch).Ran?
    ensures var r := Main(q, answers, cache, fetch);
      var links := FetchAllLinks([], answers).value;
      var h := Harvesting(links, 1, cache, Produce(fetch));
      && r.build == Parts.BuildParts(h.snippets)
      && |h.snippets| == |links|
      && (forall j :: 0 <= j < |links| ==> links[j] in r.cache && h.snippets[j] == r.cache[links[j]])
      && r.cache.Keys == cache.Keys + set l | l in links
      && (forall k :: k in cache ==> k in r.cache && r.cache[k] == cache[k])
  {
    var links := FetchAllLinks([], answers).value;
    var h := Harvesting(links, 1, cache, Produce(fetch));
    assert Main(q, answers, cache, fetch).cache == h.cache;
    HarvestEntries(links, 1, cache, Produce(fetch));
    HarvestKeys(links, 1, cache, Produce(fetch));
    HarvestKeepsOld(links, 1, cache, Produce(fetch));
  }
}
