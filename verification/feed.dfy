/**
 Artikel.py `ambil_daftar_post_from_feed`: the post list, from the cache
 file when it loads, else from the blog's RSS feed read in batches of 500,
 else (when the feed gave nothing) from the homepage's post headings. A link
 is added only when no listed post has it yet, so the list never holds a
 link twice and each link keeps the title of its first occurrence.
 */
module Feed {
  import opened Common
  import opened Text
  import opened Extract

  /** An `<item>`'s child element as ElementTree gives it: absent, or present
      with its text (None for an empty element, on which `.strip()` raises). */
  datatype Tag = Absent | Present(text: Option<string>)

  datatype Item = Item(title: Tag, link: Tag)

  /** One batch request: the stop flag as the loop saw it, and what came back.
      `parsed` is None when the body is not well-formed XML (`ET.fromstring` raises). */
  datatype FeedOutcome = FeedRaised | FeedReply(status: int, text: string, parsed: Option<seq<Item>>)
  datatype Batch = Batch(stop: bool, outcome: FeedOutcome)

  /** A homepage heading's first `<a href>`: its text (`get_text(strip=True)`) and its href. */
  datatype Anchor = Anchor(text: string, href: string)

  /** The homepage request: raised, or a response with its status and, per
      `h2`/`h3` post-title heading, its first link if any. */
  datatype HomePage = HomeRaised | HomeResponse(status: int, headings: seq<Option<Anchor>>)

  /** What the call returns and what it writes to POSTS_CACHE (None: no write). */
  datatype Listing = Listing(posts: seq<Post>, written: Option<seq<Post>>)

  /** The feed filter: a non-empty link that contains "/20". */
  predicate FeedLink(p: Post) {
    p.link != "" && Contains(p.link, "/20")
  }

  /** `if link and "/20" in link and not any(l == link ...): append`, with the
      admission test passed in (the homepage pass tests its href beforehand). */
  function AddIfNew(acc: seq<Post>, p: Post, admit: Post -> bool): (r: seq<Post>)
    ensures admit(p) && p.link !in Links(acc) ==> r == acc + [p]
    ensures !(admit(p) && p.link !in Links(acc)) ==> r == acc
  {
    if admit(p) && p.link !in Links(acc) then acc + [p] else acc
  }

  /** Adding a list of candidates one after the other. */
  function AddAll(acc: seq<Post>, ps: seq<Post>, admit: Post -> bool): seq<Post>
    decreases |ps|
  {
    if ps == [] then acc else AddAll(AddIfNew(acc, ps[0], admit), ps[1..], admit)
  }

  lemma LinksAppend(a: seq<Post>, b: seq<Post>)
    ensures Links(a + b) == Links(a) + Links(b)
  {
  }

  /** Adding only appends: the list so far is kept, and what is added was admitted. */
  lemma {:induction false} AddAllAppends(acc: seq<Post>, ps: seq<Post>, admit: Post -> bool)
    ensures var r := AddAll(acc, ps, admit);
      && |acc| <= |r| && r[..|acc|] == acc
      && forall j :: |acc| <= j < |r| ==> admit(r[j])
    decreases |ps|
  {
    if ps != [] {
      var next := AddIfNew(acc, ps[0], admit);
      AddAllAppends(next, ps[1..], admit);
      var r := AddAll(next, ps[1..], admit);
      assert r[..|acc|] == r[..|next|][..|acc|];
      if next != acc {
        assert r[|acc|] == next[|acc|] == ps[0];
      }
    }
  }

  /** What is added comes from the candidates, in candidate order. */
  lemma {:induction false} AddAllInOrder(acc: seq<Post>, ps: seq<Post>, admit: Post -> bool)
    ensures var r := AddAll(acc, ps, admit); |acc| <= |r| && Subseq(r[|acc|..], ps)
    decreases |ps|
  {
    AddAllAppends(acc, ps, admit);
    if ps != [] {
      var next := AddIfNew(acc, ps[0], admit);
      AddAllInOrder(next, ps[1..], admit);
      AddAllAppends(next, ps[1..], admit);
      var r := AddAll(next, ps[1..], admit);
      if next != acc {
        assert r[|acc|] == next[|acc|] == ps[0];
        assert r[|acc|..][1..] == r[|next|..];
      } else {
        SubseqTail(r[|acc|..], ps);
      }
    }
  }

  /** A subsequence of the tail is a subsequence of the whole. */
  lemma {:induction false} SubseqTail<T>(xs: seq<T>, ys: seq<T>)
    requires ys != [] && Subseq(xs, ys[1..])
    ensures Subseq(xs, ys)
    decreases |ys|, 0
  {
    if xs != [] && xs[0] == ys[0] {
      SubseqDrop(xs, ys[1..]);
    }
  }

  /** Dropping the first element of a subsequence keeps it a subsequence. */
  lemma {:induction false} SubseqDrop<T>(xs: seq<T>, ys: seq<T>)
    requires xs != [] && Subseq(xs, ys)
    ensures Subseq(xs[1..], ys)
    decreases |ys|, 1
  {
    if xs[0] == ys[0] {
      if xs[1..] != [] {
        SubseqTail(xs[1..], ys);
      }
    } else {
      SubseqDrop(xs, ys[1..]);
      if xs[1..] != [] {
        SubseqTail(xs[1..], ys);
      }
    }
  }

  /** No link is listed twice. */
  lemma {:induction false} AddAllNoDup(acc: seq<Post>, ps: seq<Post>, admit: Post -> bool)
    requires NoDup(Links(acc))
    ensures NoDup(Links(AddAll(acc, ps, admit)))
    decreases |ps|
  {
    if ps != [] {
      var next := AddIfNew(acc, ps[0], admit);
      if next != acc {
        LinksAppend(acc, [ps[0]]);
      }
      AddAllNoDup(next, ps[1..], admit);
    }
  }

  /** Every admitted candidate's link ends up listed. */
  lemma {:induction false} AddAllCovers(acc: seq<Post>, ps: seq<Post>, admit: Post -> bool)
    ensures var r := AddAll(acc, ps, admit);
      && (forall l :: l in Links(acc) ==> l in Links(r))
      && (forall i :: 0 <= i < |ps| && admit(ps[i]) ==> ps[i].link in Links(r))
    decreases |ps|
  {
    if ps != [] {
      var next := AddIfNew(acc, ps[0], admit);
      LinksAppend(acc, [ps[0]]);
      assert forall l :: l in Links(acc) ==> l in Links(next);
      if admit(ps[0]) && ps[0].link !in Links(acc) {
        assert Links(next)[|acc|] == ps[0].link;
      }
      AddAllCovers(next, ps[1..], admit);
      assert forall i :: 1 <= i < |ps| ==> ps[i] == ps[1..][i - 1];
    }
  }

  /** A link keeps the title of its first admitted occurrence: the first
      admitted candidate with a link not yet listed is itself in the result. */
  lemma {:induction false} AddAllFirst(acc: seq<Post>, ps: seq<Post>, admit: Post -> bool)
    ensures var r := AddAll(acc, ps, admit);
      forall i :: 0 <= i < |ps| && admit(ps[i]) && ps[i].link !in Links(acc)
                  && (forall h :: 0 <= h < i ==> !(admit(ps[h]) && ps[h].link == ps[i].link))
                  ==> ps[i] in r
    decreases |ps|
  {
    if ps != [] {
      var next := AddIfNew(acc, ps[0], admit);
      var r := AddAll(next, ps[1..], admit);
      AddAllFirst(next, ps[1..], admit);
      AddAllAppends(next, ps[1..], admit);
      LinksAppend(acc, [ps[0]]);
      forall i | 0 <= i < |ps| && admit(ps[i]) && ps[i].link !in Links(acc)
                 && (forall h :: 0 <= h < i ==> !(admit(ps[h]) && ps[h].link == ps[i].link))
        ensures ps[i] in r
      {
        if i == 0 {
          assert next == acc + [ps[0]];
          assert r[..|next|] == next;
          assert r[|acc|] == ps[0];
        } else {
          assert !(admit(ps[0]) && ps[0].link == ps[i].link);
          assert ps[i].link !in Links(next);
          assert ps[1..][i - 1] == ps[i];
          forall h | 0 <= h < i - 1
            ensures !(admit(ps[1..][h]) && ps[1..][h].link == ps[1..][i - 1].link)
          {
            assert ps[1..][h] == ps[h + 1];
          }
        }
      }
    }
  }

  /** A tag's stripped text, the default when the tag is absent, None when `.strip()` would raise. */
  function TagValue(t: Tag, default: string): (r: Option<string>)
    ensures r.None? <==> t.Present? && t.text.None?
    ensures t.Absent? ==> r == Some(default)
    ensures t.Present? && t.text.Some? ==> r == Some(Strip(t.text.value))
  {
    match t
    case Absent => Some(default)
    case Present(None) => None
    case Present(Some(x)) => Some(Strip(x))
  }

  /** The post an item yields (title first, then link), or None when reading a tag raises. */
  function ItemPost(it: Item): (r: Option<Post>)
    ensures r.None? <==> (it.title.Present? && it.title.text.None?) || (it.link.Present? && it.link.text.None?)
    ensures r.Some? ==> r.value == Post(TagValue(it.title, "Tanpa Judul").value, TagValue(it.link, "").value)
  {
    var title := TagValue(it.title, "Tanpa Judul");
    var link := TagValue(it.link, "");
    if title.None? || link.None? then None else Some(Post(title.value, link.value))
  }

  /** The posts of a batch's items up to the first item that raises, and whether one did. */
  function ItemPosts(items: seq<Item>): (r: (seq<Post>, bool))
    ensures |r.0| <= |items|
    ensures forall j :: 0 <= j < |r.0| ==> ItemPost(items[j]) == Some(r.0[j])
    ensures r.1 <==> |r.0| < |items|
    ensures r.1 ==> ItemPost(items[|r.0|]).None?
    decreases |items|
  {
    if items == [] then ([], false)
    else match ItemPost(items[0])
      case None => ([], true)
      case Some(p) =>
        var rest := ItemPosts(items[1..]);
        assert forall j :: 1 <= j < |items| ==> items[j] == items[1..][j - 1];
        ([p] + rest.0, rest.1)
  }

  /** The `while True` loop over feed batches. A batch ends the loop when the
      stop flag is set, the request raises, the status is not 200, the body is
      blank, the XML does not parse, it has no items, or one of its items
      raises (after the items before it were added). The response sequence
      ends where the server's answers end; it is not extended past that. */
  function ReadFeed(acc: seq<Post>, batches: seq<Batch>): seq<Post>
    decreases |batches|
  {
    if batches == [] then acc
    else match BatchItems(batches[0])
      case None => acc
      case Some(items) =>
        var (ps, crashed) := ItemPosts(items);
        var acc' := AddAll(acc, ps, FeedLink);
        if crashed then acc' else ReadFeed(acc', batches[1..])
  }

  /** The items of a batch the loop goes on to read, or None when the batch ends the loop first. */
  function BatchItems(b: Batch): (r: Option<seq<Item>>)
    ensures r.Some? <==> !b.stop && b.outcome.FeedReply? && b.outcome.status == 200 && Strip(b.outcome.text) != ""
                         && b.outcome.parsed.Some? && b.outcome.parsed.value != []
    ensures r.Some? ==> r == b.outcome.parsed
  {
    if b.stop then None
    else match b.outcome
      case FeedRaised => None
      case FeedReply(status, text, parsed) =>
        if status != 200 || Strip(text) == "" || parsed.None? || parsed.value == [] then None else parsed
  }

  /** The homepage candidates: headings with a link whose href contains "/20", with the href resolved. */
  function HomeCandidates(headings: seq<Option<Anchor>>, resolve: string -> string): (r: seq<Post>)
    decreases |headings|
  {
    if headings == [] then []
    else
      var rest := HomeCandidates(headings[1..], resolve);
      match headings[0]
      case Some(a) => if Candidate(headings[0]) then [Post(a.text, resolve(a.href))] + rest else rest
      case None => rest
  }

  /** A heading that yields a candidate: it has a link whose href contains "/20". */
  predicate Candidate(h: Option<Anchor>) {
    h.Some? && Contains(h.value.href, "/20")
  }

  /** The positions, in increasing order, of the headings that yield a candidate. */
  function CandidateIndices(headings: seq<Option<Anchor>>): (idx: seq<nat>)
    ensures forall j :: 0 <= j < |idx| ==> idx[j] < |headings|
    decreases |headings|
  {
    if headings == [] then []
    else
      var rest := CandidateIndices(headings[1..]);
      (if Candidate(headings[0]) then [0] else []) + seq(|rest|, j requires 0 <= j < |rest| => rest[j] + 1)
  }

  /** The j-th candidate is the heading at the j-th candidate position, as its
      link text and resolved href. */
  lemma {:induction false} HomeCandidatesAt(headings: seq<Option<Anchor>>, resolve: string -> string)
    ensures var r, idx := HomeCandidates(headings, resolve), CandidateIndices(headings);
      && |idx| == |r|
      && forall j :: 0 <= j < |idx| ==>
           Candidate(headings[idx[j]]) && r[j] == Post(headings[idx[j]].value.text, resolve(headings[idx[j]].value.href))
    decreases |headings|
  {
    if headings != [] {
      var tail := headings[1..];
      HomeCandidatesAt(tail, resolve);
      var r, idx := HomeCandidates(headings, resolve), CandidateIndices(headings);
      var rr, ri := HomeCandidates(tail, resolve), CandidateIndices(tail);
      var d := if Candidate(headings[0]) then 1 else 0;
      assert |idx| == |r| == |rr| + d;
      forall j | d <= j < |idx|
        ensures Candidate(headings[idx[j]]) && r[j] == Post(headings[idx[j]].value.text, resolve(headings[idx[j]].value.href))
      {
        assert idx[j] == ri[j - d] + 1 && r[j] == rr[j - d];
        assert headings[idx[j]] == tail[ri[j - d]];
      }
    }
  }

  predicate Increasing(idx: seq<nat>) {
    forall j, k :: 0 <= j < k < |idx| ==> idx[j] < idx[k]
  }

  /** The candidate positions increase, so the candidates keep heading order. */
  lemma {:induction false} CandidateIndicesIncrease(headings: seq<Option<Anchor>>)
    ensures Increasing(CandidateIndices(headings))
    decreases |headings|
  {
    if headings != [] {
      CandidateIndicesIncrease(headings[1..]);
      var idx, ri := CandidateIndices(headings), CandidateIndices(headings[1..]);
      var d := if Candidate(headings[0]) then 1 else 0;
      assert |idx| == |ri| + d;
      forall j, k | 0 <= j < k < |idx|
        ensures idx[j] < idx[k]
      {
        assert idx[k] == ri[k - d] + 1;
        if j >= d {
          var j', k' := j - d, k - d;
          assert 0 <= j' < k' < |ri|;
          assert idx[j] == ri[j'] + 1 && ri[j'] < ri[k'];
        } else {
          assert idx[j] == 0;
        }
      }
    }
  }

  /** No heading that yields a candidate is left out. */
  lemma {:induction false} CandidateIndicesComplete(headings: seq<Option<Anchor>>)
    ensures forall i :: 0 <= i < |headings| && Candidate(headings[i]) ==> i in CandidateIndices(headings)
    decreases |headings|
  {
    if headings != [] {
      var tail := headings[1..];
      CandidateIndicesComplete(tail);
      var idx, ri := CandidateIndices(headings), CandidateIndices(tail);
      var d := if Candidate(headings[0]) then 1 else 0;
      forall i | 1 <= i < |headings| && Candidate(headings[i])
        ensures i in idx
      {
        assert tail[i - 1] == headings[i];
        var j :| 0 <= j < |ri| && ri[j] == i - 1;
        assert idx[j + d] == i;
      }
    }
  }

  /** The homepage fallback; `raise_for_status` failures and request errors leave the list as it was. */
  function ReadHome(acc: seq<Post>, home: HomePage, resolve: string -> string): seq<Post> {
    match home
    case HomeRaised => acc
    case HomeResponse(status, headings) =>
      if IsHttpError(status) then acc else AddAll(acc, HomeCandidates(headings, resolve), AlwaysAdmit)
  }

  /** The homepage pass admits every candidate: its "/20" test was on the href. */
  predicate AlwaysAdmit(p: Post) { true }

  lemma HomeNoDup(home: HomePage, resolve: string -> string)
    ensures NoDup(Links(ReadHome([], home, resolve)))
  {
    if home.HomeResponse? && !IsHttpError(home.status) {
      AddAllNoDup([], HomeCandidates(home.headings, resolve), AlwaysAdmit);
    }
  }

  /** `ambil_daftar_post_from_feed()`. `cached` is the cache file's content
      when it exists and parses; `resolve` stands for `urljoin(BLOG_URL, ·)`. */
  function ListPosts(cached: Option<seq<Post>>, batches: seq<Batch>, home: HomePage, resolve: string -> string): (r: Listing)
    ensures cached.Some? ==> r == Listing(cached.value, None)
    ensures cached.None? ==> r.written == Some(r.posts)
    ensures cached.None? ==> NoDup(Links(r.posts))
    ensures cached.None? && ReadFeed([], batches) != [] ==> r.posts == ReadFeed([], batches)
    ensures cached.None? && ReadFeed([], batches) == [] ==> r.posts == ReadHome([], home, resolve)
  {
    match cached
    case Some(ps) => Listing(ps, None)
    case None =>
      var fromFeed := ReadFeed([], batches);
      FeedNoDup([], batches);
      var posts := if fromFeed == [] then ReadHome([], home, resolve) else fromFeed;
      HomeNoDup(home, resolve);
      Listing(posts, Some(posts))
  }

  lemma {:induction false} FeedNoDup(acc: seq<Post>, batches: seq<Batch>)
    requires NoDup(Links(acc))
    ensures NoDup(Links(ReadFeed(acc, batches)))
    decreases |batches|
  {
    if batches != [] && BatchItems(batches[0]).Some? {
      var (ps, crashed) := ItemPosts(BatchItems(batches[0]).value);
      AddAllNoDup(acc, ps, FeedLink);
      if !crashed {
        FeedNoDup(AddAll(acc, ps, FeedLink), batches[1..]);
      }
    }
  }

  /** Every post the feed pass lists has a non-empty link containing "/20". */
  lemma {:induction false} FeedLinksFiltered(acc: seq<Post>, batches: seq<Batch>)
    requires forall j :: 0 <= j < |acc| ==> FeedLink(acc[j])
    ensures var r := ReadFeed(acc, batches); forall j :: 0 <= j < |r| ==> FeedLink(r[j])
    decreases |batches|
  {
    if batches != [] && BatchItems(batches[0]).Some? {
      var (ps, crashed) := ItemPosts(BatchItems(batches[0]).value);
      var next := AddAll(acc, ps, FeedLink);
      AddAllAppends(acc, ps, FeedLink);
      forall j | 0 <= j < |next|
        ensures FeedLink(next[j])
      {
        if j < |acc| {
          assert next[j] == next[..|acc|][j] == acc[j];
        }
      }
      if !crashed {
        FeedLinksFiltered(next, batches[1..]);
        assert ReadFeed(acc, batches) == ReadFeed(next, batches[1..]);
      } else {
        assert ReadFeed(acc, batches) == next;
      }
    }
  }

  /** When the feed gave posts, every listed post passed the feed's link filter. */
  lemma ListPostsFeedFiltered(batches: seq<Batch>, home: HomePage, resolve: string -> string)
    requires ReadFeed([], batches) != []
    ensures var r := ListPosts(None, batches, home, resolve);
      forall j :: 0 <= j < |r.posts| ==> FeedLink(r.posts[j])
  {
    FeedLinksFiltered([], batches);
  }
}
