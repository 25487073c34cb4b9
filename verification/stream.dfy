/**
 tools/scraper_stream.py `scrape`: walks the collected links, skips those
 recorded as done, appends one cleaned block per fetched page to a single
 output file, records the link as done and saves the progress right away.
 A failed request leaves the link pending for the next run.
 */
module Stream {
  import opened Common
  import opened Text
  import opened Extract
  import Parts

  /** `load_progress()`: the saved list as a set; no file gives the empty set. */
  function LoadProgress(saved: Option<seq<string>>): (done: set<string>)
    ensures saved.None? ==> done == {}
    ensures saved.Some? ==> forall l :: l in done <==> l in saved.value
  {
    match saved
    case None => {}
    case Some(ls) => set l | l in ls
  }

  /** `save_progress(done)`: `list(done)`, in the set's iteration order, which
      the program does not fix; this is one such listing. */
  ghost function SaveProgress(done: set<string>): (ls: seq<string>)
    ensures forall l :: l in ls <==> l in done
    ensures |ls| == |done|
    decreases done
  {
    if done == {} then []
    else
      var l :| l in done;
      [l] + SaveProgress(done - {l})
  }

  /** Loading what was saved gives back the same set, whatever order `list` chose. */
  lemma ProgressRoundTrip(done: set<string>, ls: seq<string>)
    requires forall l :: l in ls <==> l in done
    ensures LoadProgress(Some(ls)) == done
  {
  }

  /** Saving then loading gives back the set. */
  lemma SaveLoad(done: set<string>)
    ensures LoadProgress(Some(SaveProgress(done))) == done
  {
    ProgressRoundTrip(done, SaveProgress(done));
  }

  const Header := "<html><body><h1>\U{1F3B8} Koleksi Chord</h1>"
  const Footer := "</body></html>"

  /** `init_output()`: the output file's content once it has run; the header
      is written only when there was no file. */
  function InitOutput(existing: Option<string>): (out: string)
    ensures existing.None? ==> out == Header
    ensures existing.Some? ==> out == existing.value
  {
    existing.GetOr(Header)
  }

  /** One appended block and the 0-based position of the link it is for. */
  datatype Block = Block(at: nat, html: string)

  datatype Pass = Pass(blocks: seq<Block>, done: set<string>, saves: seq<set<string>>)

  /** The loop from position `i` on. `attempt(link, i)` is what the request
      made at position `i` yields: the block to append, or None when it
      raised; a repeated link may fare differently each time. */
  function Walk(links: seq<string>, i: nat, done: set<string>, attempt: (string, nat) -> Option<string>): (p: Pass)
    ensures |p.saves| == |p.blocks|
    decreases |links|
  {
    if links == [] then Pass([], done, [])
    else if links[0] in done then Walk(links[1..], i + 1, done, attempt)
    else match attempt(links[0], i)
      case None => Walk(links[1..], i + 1, done, attempt)
      case Some(html) =>
        var done' := done + {links[0]};
        var rest := Walk(links[1..], i + 1, done', attempt);
        Pass([Block(i, html)] + rest.blocks, rest.done, [done'] + rest.saves)
  }

  /** Reference: the links whose request would succeed, whether or not they were needed. */
  function Answered(links: seq<string>, i: nat, attempt: (string, nat) -> Option<string>): set<string>
    decreases |links|
  {
    if links == [] then {}
    else (if attempt(links[0], i).Some? then {links[0]} else {}) + Answered(links[1..], i + 1, attempt)
  }

  /** `done` ends as the initial set together with every link whose request
      succeeded; a link whose request raised stays pending. */
  lemma {:induction false} WalkDone(links: seq<string>, i: nat, done: set<string>, attempt: (string, nat) -> Option<string>)
    ensures Walk(links, i, done, attempt).done == done + Answered(links, i, attempt)
    decreases |links|
  {
    if links != [] {
      if links[0] in done || attempt(links[0], i).None? {
        WalkDone(links[1..], i + 1, done, attempt);
      } else {
        WalkDone(links[1..], i + 1, done + {links[0]}, attempt);
      }
    }
  }

  /** `done` only grows, by exactly one link per block. */
  lemma {:induction false} WalkCount(links: seq<string>, i: nat, done: set<string>, attempt: (string, nat) -> Option<string>)
    ensures var p := Walk(links, i, done, attempt); done <= p.done && |p.done| == |done| + |p.blocks|
    decreases |links|
  {
    if links != [] {
      if links[0] in done || attempt(links[0], i).None? {
        WalkCount(links[1..], i + 1, done, attempt);
      } else {
        WalkCount(links[1..], i + 1, done + {links[0]}, attempt);
      }
    }
  }

  /** The walk from position `i`: skipping the first link, or appending its block. */
  lemma WalkStep(links: seq<string>, i: nat, done: set<string>, attempt: (string, nat) -> Option<string>)
    requires links != []
    ensures var p := Walk(links, i, done, attempt);
      var skip := links[0] in done || attempt(links[0], i).None?;
      var done' := if skip then done else done + {links[0]};
      var rest := Walk(links[1..], i + 1, done', attempt);
      && (skip ==> p == rest)
      && (!skip ==> p == Pass([Block(i, attempt(links[0], i).value)] + rest.blocks, rest.done, [done'] + rest.saves))
  {
  }

  /** Block `n` is for a link not done when it was reached (not in the
      loaded set, nor in the set saved after the block before it), and is
      what its request yielded. */
  lemma {:induction false} BlockIsFor(links: seq<string>, i: nat, done: set<string>, attempt: (string, nat) -> Option<string>, n: nat)
    requires n < |Walk(links, i, done, attempt).blocks|
    ensures var p := Walk(links, i, done, attempt);
      var b := p.blocks[n];
      && i <= b.at < i + |links|
      && links[b.at - i] !in done
      && links[b.at - i] !in (if n == 0 then done else p.saves[n - 1])
      && attempt(links[b.at - i], b.at) == Some(b.html)
    decreases |links|
  {
    WalkStep(links, i, done, attempt);
    var p := Walk(links, i, done, attempt);
    var bs := p.blocks;
    var skip := links[0] in done || attempt(links[0], i).None?;
    var done' := if skip then done else done + {links[0]};
    var rest := Walk(links[1..], i + 1, done', attempt);
    var d := |bs| - |rest.blocks|;
    if n >= d {
      BlockIsFor(links[1..], i + 1, done', attempt, n - d);
      assert bs[n] == rest.blocks[n - d];
      assert links[bs[n].at - i] == links[1..][bs[n].at - (i + 1)];
      if n >= 1 {
        assert p.saves[n - 1] == if n - d == 0 then done' else rest.saves[n - d - 1];
      }
    }
  }

  /** The blocks are for positions `i ..` of `links`, each for a different link. */
  predicate DistinctLinks(links: seq<string>, i: nat, bs: seq<Block>) {
    forall m, n :: 0 <= m < n < |bs| ==>
      && i <= bs[m].at < i + |links| && i <= bs[n].at < i + |links|
      && links[bs[m].at - i] != links[bs[n].at - i]
  }

  /** No link gets two blocks: once a link's request succeeds, a later
      occurrence of it in the list is skipped and writes nothing. */
  lemma BlocksDistinct(links: seq<string>, i: nat, done: set<string>, attempt: (string, nat) -> Option<string>)
    ensures DistinctLinks(links, i, Walk(links, i, done, attempt).blocks)
  {
    var bs := Walk(links, i, done, attempt).blocks;
    forall m | 0 <= m < |bs|
      ensures i <= bs[m].at < i + |links|
    {
      BlockIsFor(links, i, done, attempt, m);
    }
    forall m, n | 0 <= m < n < |bs|
      ensures links[bs[m].at - i] != links[bs[n].at - i]
    {
      BlockPairDistinct(links, i, done, attempt, m, n);
    }
  }

  /** Blocks `m < n` are for different links: block `m`'s link is in save
      `m`, saves only grow, and block `n`'s link is not in save `n - 1`. */
  lemma BlockPairDistinct(links: seq<string>, i: nat, done: set<string>, attempt: (string, nat) -> Option<string>, m: nat, n: nat)
    requires m < n < |Walk(links, i, done, attempt).blocks|
    ensures var bs := Walk(links, i, done, attempt).blocks;
      && i <= bs[m].at < i + |links| && i <= bs[n].at < i + |links|
      && links[bs[m].at - i] != links[bs[n].at - i]
  {
    var p := Walk(links, i, done, attempt);
    SaveAt(links, i, done, attempt, m);
    BlockIsFor(links, i, done, attempt, n);
    SavesGrow(links, i, done, attempt);
    assert p.saves[m] <= p.saves[n - 1];
  }

  /** Blocks come in link order. */
  lemma {:induction false} BlocksInOrder(links: seq<string>, i: nat, done: set<string>, attempt: (string, nat) -> Option<string>)
    ensures var bs := Walk(links, i, done, attempt).blocks;
      forall m, n :: 0 <= m < n < |bs| ==> bs[m].at < bs[n].at
    decreases |links|
  {
    if links != [] {
      WalkStep(links, i, done, attempt);
      var bs := Walk(links, i, done, attempt).blocks;
      var skip := links[0] in done || attempt(links[0], i).None?;
      var done' := if skip then done else done + {links[0]};
      var rest := Walk(links[1..], i + 1, done', attempt).blocks;
      BlocksInOrder(links[1..], i + 1, done', attempt);
      var d := |bs| - |rest|;
      forall m, n | 0 <= m < n < |bs|
        ensures bs[m].at < bs[n].at
      {
        assert bs[n] == rest[n - d];
        BlockIsFor(links[1..], i + 1, done', attempt, n - d);
        if m >= d {
          assert bs[m] == rest[m - d];
        }
      }
    }
  }

  /** Save `n` follows block `n`: it holds the links done so far, that block's link included. */
  lemma SaveAt(links: seq<string>, i: nat, done: set<string>, attempt: (string, nat) -> Option<string>, n: nat)
    requires n < |Walk(links, i, done, attempt).saves|
    ensures var p := Walk(links, i, done, attempt);
      && done <= p.saves[n] <= p.done
      && i <= p.blocks[n].at < i + |links| && links[p.blocks[n].at - i] in p.saves[n]
  {
    SaveBetween(links, i, done, attempt, n);
    SaveHoldsBlock(links, i, done, attempt, n);
  }

  lemma {:induction false} SaveBetween(links: seq<string>, i: nat, done: set<string>, attempt: (string, nat) -> Option<string>, n: nat)
    requires n < |Walk(links, i, done, attempt).saves|
    ensures var p := Walk(links, i, done, attempt); done <= p.saves[n] <= p.done
    decreases |links|
  {
    WalkStep(links, i, done, attempt);
    var skip := links[0] in done || attempt(links[0], i).None?;
    var done' := if skip then done else done + {links[0]};
    if skip {
      SaveBetween(links[1..], i + 1, done', attempt, n);
    } else if n == 0 {
      WalkCount(links[1..], i + 1, done', attempt);
    } else {
      SaveBetween(links[1..], i + 1, done', attempt, n - 1);
    }
  }

  lemma {:induction false} SaveHoldsBlock(links: seq<string>, i: nat, done: set<string>, attempt: (string, nat) -> Option<string>, n: nat)
    requires n < |Walk(links, i, done, attempt).saves|
    ensures var p := Walk(links, i, done, attempt);
      i <= p.blocks[n].at < i + |links| && links[p.blocks[n].at - i] in p.saves[n]
    decreases |links|
  {
    WalkStep(links, i, done, attempt);
    var p := Walk(links, i, done, attempt);
    var skip := links[0] in done || attempt(links[0], i).None?;
    var done' := if skip then done else done + {links[0]};
    var rest := Walk(links[1..], i + 1, done', attempt);
    if skip {
      SaveHoldsBlock(links[1..], i + 1, done', attempt, n);
      assert links[p.blocks[n].at - i] == links[1..][p.blocks[n].at - (i + 1)];
    } else if n == 0 {
      assert p.saves[0] == done' && p.blocks[0].at == i;
    } else {
      SaveHoldsBlock(links[1..], i + 1, done', attempt, n - 1);
      assert p.saves[n] == rest.saves[n - 1] && p.blocks[n] == rest.blocks[n - 1];
      assert links[p.blocks[n].at - i] == links[1..][p.blocks[n].at - (i + 1)];
    }
  }

  /** Saves only grow, and the last one is the final set. */
  lemma {:induction false} SavesGrow(links: seq<string>, i: nat, done: set<string>, attempt: (string, nat) -> Option<string>)
    ensures var p := Walk(links, i, done, attempt);
      && (forall m, n :: 0 <= m < n < |p.saves| ==> p.saves[m] <= p.saves[n])
      && (p.saves != [] ==> p.saves[|p.saves| - 1] == p.done)
      && (p.saves == [] ==> p.done == done)
    decreases |links|
  {
    if links != [] {
      WalkStep(links, i, done, attempt);
      var p := Walk(links, i, done, attempt);
      var skip := links[0] in done || attempt(links[0], i).None?;
      var done' := if skip then done else done + {links[0]};
      var rest := Walk(links[1..], i + 1, done', attempt);
      SavesGrow(links[1..], i + 1, done', attempt);
      var d := |p.saves| - |rest.saves|;
      forall m, n | 0 <= m < n < |p.saves|
        ensures p.saves[m] <= p.saves[n]
      {
        assert p.saves[n] == rest.saves[n - d];
        SaveAt(links[1..], i + 1, done', attempt, n - d);
        if m >= d {
          assert p.saves[m] == rest.saves[m - d];
        }
      }
      if rest.saves != [] {
        assert p.saves[|p.saves| - 1] == rest.saves[|rest.saves| - 1];
      }
    }
  }

  function Htmls(bs: seq<Block>): (r: seq<string>)
    ensures |r| == |bs|
    ensures forall n :: 0 <= n < |bs| ==> r[n] == bs[n].html
  {
    seq(|bs|, n requires 0 <= n < |bs| => bs[n].html)
  }

  /** What a run leaves behind: the output file and the progress set. */
  datatype StreamRun = StreamRun(output: string, done: set<string>, saves: seq<set<string>>)

  /** The request made for `link` at position `i`, as the loop uses it. */
  function Attempt(fetch: nat -> HttpOutcome, clean: string -> string): (string, nat) -> Option<string> {
    (link: string, i: nat) => StreamBlock(link, fetch(i), clean)
  }

  /** `scrape()`: `links` is the links file, `saved` the progress file if any,
      `existing` the output file if any; `clean` stands for `clean_html`. */
  function Scrape(links: seq<string>, saved: Option<seq<string>>, existing: Option<string>,
                  fetch: nat -> HttpOutcome, clean: string -> string): StreamRun
  {
    var p := Walk(links, 0, LoadProgress(saved), Attempt(fetch, clean));
    StreamRun(InitOutput(existing) + Concat(Htmls(p.blocks)) + Footer, p.done, p.saves)
  }

  /** An attempt fails exactly when the request raised: a 4xx/5xx answer still yields a block. */
  lemma AttemptFails(fetch: nat -> HttpOutcome, clean: string -> string, link: string, i: nat)
    ensures Attempt(fetch, clean)(link, i).None? <==> fetch(i).Raised?
  {
  }

  /** A run: `done` becomes the loaded progress with every link whose request
      succeeded, growing by one link per block; the last save is the final set. */
  lemma ScrapeDone(links: seq<string>, saved: Option<seq<string>>, existing: Option<string>,
                   fetch: nat -> HttpOutcome, clean: string -> string)
    ensures var r := Scrape(links, saved, existing, fetch, clean);
      var done := LoadProgress(saved);
      var p := Walk(links, 0, done, Attempt(fetch, clean));
      && r.done == done + Answered(links, 0, Attempt(fetch, clean))
      && done <= r.done
      && |r.done| == |done| + |p.blocks|
      && (r.saves != [] ==> r.saves[|r.saves| - 1] == r.done)
  {
    var done := LoadProgress(saved);
    WalkDone(links, 0, done, Attempt(fetch, clean));
    WalkCount(links, 0, done, Attempt(fetch, clean));
    SavesGrow(links, 0, done, Attempt(fetch, clean));
  }

  /** The output file starts with what was there (the header only for a new
      file), ends with the closing tags, and holds every appended block. */
  lemma ScrapeOutput(links: seq<string>, saved: Option<seq<string>>, existing: Option<string>,
                     fetch: nat -> HttpOutcome, clean: string -> string)
    ensures var out := Scrape(links, saved, existing, fetch, clean).output;
      var start := if existing.Some? then existing.value else Header;
      var bs := Walk(links, 0, LoadProgress(saved), Attempt(fetch, clean)).blocks;
      && |start| + |Footer| <= |out|
      && out[..|start|] == start
      && out[|out| - |Footer|..] == Footer
      && forall n :: 0 <= n < |bs| ==> Contains(out, bs[n].html)
  {
    var out := Scrape(links, saved, existing, fetch, clean).output;
    var start := InitOutput(existing);
    var bs := Walk(links, 0, LoadProgress(saved), Attempt(fetch, clean)).blocks;
    var body := Concat(Htmls(bs));
    assert out == start + body + Footer;
    assert out[..|start|] == start;
    assert out[|out| - |Footer|..] == Footer;
    forall n | 0 <= n < |bs|
      ensures Contains(out, bs[n].html)
    {
      Parts.ConcatHas(Htmls(bs), n);
      ContainsWiden(start, body, Footer, bs[n].html);
    }
  }
}
