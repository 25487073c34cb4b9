/**
 Artikel.py `scrape_links_parallel`: the cache-aware fetch/merge loop of the
 threaded scraper. The thread pool is replaced by its observable behaviour:
 the sequence in which `as_completed` yields finished tasks, each tagged with
 whether the stop flag was set when the coordinator looked at it. File writes
 are recorded as the list of checkpoints saved, in order.
 */
module Pipeline {
  import opened Common
  import Extract

  /** What `fut.result()` gave for one submitted task: the `(link, snippet)`
      pair's snippet (None when the worker saw the stop flag), or an exception. */
  datatype FutureResult = Returned(snippet: Option<string>) | Failed(message: string)

  /** One task yielded by `as_completed`: the stop flag as the loop saw it, the
      `(title, link)` the future was submitted for, and its result. */
  datatype Completion = Completion(stopSeen: bool, post: Post, result: FutureResult)

  /** One save of RESULTS_FILE together with PROGRESS_FILE's `completed` field. */
  datatype Checkpoint = Checkpoint(results: map<string, string>, completed: set<string>)

  /** The loop's variables: `results_cache`, `counter`, `last_checkpoint`, the
      checkpoints written so far and the number of completions handled. */
  datatype Loop = Loop(cache: map<string, string>, counter: int, lastCheckpoint: int,
                       saves: seq<Checkpoint>, handled: nat)

  /** What one call leaves behind: the returned cache, the tasks submitted, every save, and the counters. */
  datatype Run = Run(cache: map<string, string>, submitted: seq<Post>, saves: seq<Checkpoint>,
                     handled: nat, counter: int)

  /** The selected posts whose link is already a cache key. */
  function CachedPart(selected: seq<Post>, cache: map<string, string>): seq<Post> {
    Filter(selected, (p: Post) => p.link in cache)
  }

  /** `worklist = [(t, l) for t, l in selected_links if l not in results_cache]`:
      exactly the selected pairs whose link is not cached; with the cached ones
      they make up the whole selection, so `already + len(worklist) == total`;
      it is empty exactly when every selected link is cached. */
  function Worklist(selected: seq<Post>, cache: map<string, string>): (w: seq<Post>)
    ensures forall p :: p in w <==> p in selected && p.link !in cache
    ensures |CachedPart(selected, cache)| + |w| == |selected|
    ensures w == [] <==> forall i :: 0 <= i < |selected| ==> selected[i].link in cache
  {
    FilterPartition(selected, (p: Post) => p.link in cache, (p: Post) => p.link !in cache);
    Filter(selected, (p: Post) => p.link !in cache)
  }

  /** The worklist keeps selection order. */
  lemma WorklistInOrder(selected: seq<Post>, cache: map<string, string>)
    ensures Subseq(Worklist(selected, cache), selected)
  {
    FilterKeepsOrder(selected, (p: Post) => p.link !in cache);
  }

  /** The worklist holds each uncached pair as often as it was selected, and no cached one. */
  lemma WorklistCounts(selected: seq<Post>, cache: map<string, string>)
    ensures forall p :: multiset(Worklist(selected, cache))[p] == if p.link in cache then 0 else multiset(selected)[p]
  {
    FilterKeepsOrder(selected, (p: Post) => p.link !in cache);
  }

  /** The snippet stored for a task whose `fut.result()` raised. */
  function CrashCard(title: string, message: string): string {
    "<div class='post'><h2>" + title + "</h2><p>(Error: " + message + ")</p></div>\n"
  }

  /** The snippet a completion contributes to the merge, if any: there is
      none only when the worker returned None, so a raising future still
      contributes its crash card. */
  function Merged(c: Completion): (r: Option<string>)
    ensures r.None? <==> c.result == Returned(None)
  {
    match c.result
    case Returned(s) => s
    case Failed(e) => Some(CrashCard(c.post.title, e))
  }

  /** `safe_save_json(RESULTS_FILE, …)` followed by `prog["completed"] = list(results_cache.keys())`. */
  function Save(cache: map<string, string>): Checkpoint {
    Checkpoint(cache, cache.Keys)
  }

  /** One iteration of the `for fut in as_completed(...)` body after the stop
      check: merge the snippet when there is one, count the completion, and
      checkpoint exactly when `counter - last_checkpoint >= CHECKPOINT_EVERY`. */
  function Step(st: Loop, c: Completion, every: int): (r: Loop)
    ensures r.counter == st.counter + 1 && r.handled == st.handled + 1
    ensures Merged(c).Some? ==> r.cache == st.cache[c.post.link := Merged(c).value]
    ensures Merged(c).None? ==> r.cache == st.cache
    ensures r.counter - st.lastCheckpoint >= every ==>
              r.lastCheckpoint == r.counter && r.saves == st.saves + [Save(r.cache)]
    ensures r.counter - st.lastCheckpoint < every ==>
              r.lastCheckpoint == st.lastCheckpoint && r.saves == st.saves
    ensures every >= 1 ==> r.counter - r.lastCheckpoint < every
  {
    var cache := match Merged(c) case Some(s) => st.cache[c.post.link := s] case None => st.cache;
    var counter := st.counter + 1;
    if counter - st.lastCheckpoint >= every then
      Loop(cache, counter, counter, st.saves + [Save(cache)], st.handled + 1)
    else
      Loop(cache, counter, st.lastCheckpoint, st.saves, st.handled + 1)
  }

  /** The completions the loop handles: those before the first one at which the stop flag is seen. */
  function Taken(cs: seq<Completion>): (t: seq<Completion>)
    ensures |t| <= |cs| && t == cs[..|t|]
    ensures forall i :: 0 <= i < |t| ==> !cs[i].stopSeen
    ensures |t| < |cs| ==> cs[|t|].stopSeen
  {
    if cs == [] || cs[0].stopSeen then []
    else
      var rest := Taken(cs[1..]);
      assert forall i :: 1 <= i <= |rest| ==> cs[i] == cs[1..][i - 1];
      [cs[0]] + rest
  }

  /** The links a list of completions writes into the cache. */
  function Stored(cs: seq<Completion>): set<string> {
    if cs == [] then {}
    else (if Merged(cs[0]).Some? then {cs[0].post.link} else {}) + Stored(cs[1..])
  }

  /** The links a list of completions is about. */
  function Touched(cs: seq<Completion>): set<string> {
    if cs == [] then {} else {cs[0].post.link} + Touched(cs[1..])
  }

  /** The `as_completed` loop: handle completions until the stop flag is seen.
      Every completion handled is counted, and keys are only ever added:
      exactly the handled links that produced a snippet. */
  function Drain(st: Loop, cs: seq<Completion>, every: int): (r: Loop)
    ensures r.handled == st.handled + |Taken(cs)|
    ensures r.counter == st.counter + |Taken(cs)|
    ensures r.cache.Keys == st.cache.Keys + Stored(Taken(cs))
    decreases |cs|
  {
    if cs == [] || cs[0].stopSeen then st
    else
      var r := Drain(Step(st, cs[0], every), cs[1..], every);
      assert Taken(cs) == [cs[0]] + Taken(cs[1..]);
      assert Taken(cs)[1..] == Taken(cs[1..]);
      r
  }

  /** Entries no handled completion is about keep their value. */
  lemma {:induction false} DrainKeeps(st: Loop, cs: seq<Completion>, every: int)
    ensures var r := Drain(st, cs, every);
      forall k :: k in st.cache && k !in Touched(Taken(cs)) ==> k in r.cache && r.cache[k] == st.cache[k]
    decreases |cs|
  {
    if cs != [] && !cs[0].stopSeen {
      DrainKeeps(Step(st, cs[0], every), cs[1..], every);
      assert Taken(cs) == [cs[0]] + Taken(cs[1..]);
      assert Taken(cs)[1..] == Taken(cs[1..]);
    }
  }

  /** Earlier checkpoints are kept, and every checkpoint written records its
      cache's key set and lies between the initial and the final cache. */
  lemma {:induction false} DrainSaves(st: Loop, cs: seq<Completion>, every: int)
    ensures var r := Drain(st, cs, every);
      && |st.saves| <= |r.saves| && r.saves[..|st.saves|] == st.saves
      && forall i :: |st.saves| <= i < |r.saves| ==>
           && r.saves[i].completed == r.saves[i].results.Keys
           && st.cache.Keys <= r.saves[i].results.Keys <= r.cache.Keys
    decreases |cs|
  {
    if cs != [] && !cs[0].stopSeen {
      var next := Step(st, cs[0], every);
      DrainSaves(next, cs[1..], every);
      var r := Drain(next, cs[1..], every);
      assert r.saves[..|next.saves|] == next.saves;
      assert r.saves[..|st.saves|] == next.saves[..|st.saves|];
    }
  }

  /** `scrape_links_parallel(selected_links)` given the loaded RESULTS_FILE,
      the completion sequence and CHECKPOINT_EVERY. An empty worklist returns
      the loaded cache untouched, with nothing submitted and nothing saved.
      Otherwise every worklist task is submitted, the loop runs from
      `counter = already`, `last_checkpoint = 0`, and a final save of the
      returned cache follows. */
  function Scrape(selected: seq<Post>, loaded: map<string, string>, cs: seq<Completion>, every: int): (r: Run)
    ensures r.submitted == Worklist(selected, loaded)
    ensures r.submitted == [] ==> r.cache == loaded && r.saves == [] && r.handled == 0
    ensures r.submitted != [] ==>
              && r.handled == |Taken(cs)|
              && r.cache.Keys == loaded.Keys + Stored(Taken(cs))
              && |r.saves| >= 1 && r.saves[|r.saves| - 1] == Checkpoint(r.cache, r.cache.Keys)
    ensures r.counter == |selected| - |r.submitted| + r.handled
  {
    var w := Worklist(selected, loaded);
    var already := |selected| - |w|;
    if w == [] then Run(loaded, [], [], 0, already)
    else
      var fin := Drain(Loop(loaded, already, 0, [], 0), cs, every);
      Run(fin.cache, w, fin.saves + [Save(fin.cache)], fin.handled, fin.counter)
  }

  // ------------------------------------------------------------------ lemmas

  /** Every save records the key set of the cache it saves as `completed`,
      and saved caches only grow: each lies between the loaded and the returned cache. */
  lemma ScrapeSaves(selected: seq<Post>, loaded: map<string, string>, cs: seq<Completion>, every: int)
    ensures var r := Scrape(selected, loaded, cs, every);
      forall i :: 0 <= i < |r.saves| ==>
        && r.saves[i].completed == r.saves[i].results.Keys
        && loaded.Keys <= r.saves[i].results.Keys <= r.cache.Keys
  {
    var w := Worklist(selected, loaded);
    if w != [] {
      var st := Loop(loaded, |selected| - |w|, 0, [], 0);
      DrainSaves(st, cs, every);
      var fin := Drain(st, cs, every);
      var saves := fin.saves + [Save(fin.cache)];
      forall i | 0 <= i < |saves|
        ensures saves[i].completed == saves[i].results.Keys && loaded.Keys <= saves[i].results.Keys <= fin.cache.Keys
      {
        if i < |fin.saves| { assert saves[i] == fin.saves[i]; }
      }
    }
  }

  lemma {:induction false} StoredWithin(cs: seq<Completion>)
    ensures Stored(cs) <= Touched(cs)
    ensures forall k :: k in Touched(cs) && k !in Stored(cs) ==>
              forall i :: 0 <= i < |cs| && cs[i].post.link == k ==> Merged(cs[i]).None?
    ensures forall i :: 0 <= i < |cs| && Merged(cs[i]).Some? ==> cs[i].post.link in Stored(cs)
    decreases |cs|
  {
    if cs != [] {
      StoredWithin(cs[1..]);
      assert forall i :: 1 <= i < |cs| ==> cs[i] == cs[1..][i - 1];
    }
  }

  /** A cached entry is never overwritten: as long as every completion is for
      a submitted task, each loaded key keeps its value. */
  lemma ScrapeKeepsLoaded(selected: seq<Post>, loaded: map<string, string>, cs: seq<Completion>, every: int)
    requires forall i :: 0 <= i < |cs| ==> cs[i].post in Worklist(selected, loaded)
    ensures var r := Scrape(selected, loaded, cs, every);
      forall k :: k in loaded ==> k in r.cache && r.cache[k] == loaded[k]
  {
    var w := Worklist(selected, loaded);
    if w != [] {
      DrainKeeps(Loop(loaded, |selected| - |w|, 0, [], 0), cs, every);
      TakenTouchesWorklist(Taken(cs), selected, loaded);
    }
  }

  lemma {:induction false} TakenTouchesWorklist(t: seq<Completion>, selected: seq<Post>, loaded: map<string, string>)
    requires forall i :: 0 <= i < |t| ==> t[i].post in Worklist(selected, loaded)
    ensures forall k :: k in Touched(t) ==> k !in loaded
    decreases |t|
  {
    if t != [] {
      TakenTouchesWorklist(t[1..], selected, loaded);
      assert forall i :: 1 <= i < |t| ==> t[1..][i - 1] == t[i];
    }
  }

  /** Nothing is silently lost: the next run's worklist is exactly the selected
      posts whose link was neither loaded nor stored by a handled completion.
      Only a link whose worker saw the stop flag, or that was not handled
      before the stop, stays pending; a failed fetch is stored as a card. */
  lemma ScrapeLeavesPending(selected: seq<Post>, loaded: map<string, string>, cs: seq<Completion>, every: int)
    ensures var r := Scrape(selected, loaded, cs, every);
      var stored := if r.submitted == [] then {} else Stored(Taken(cs));
      forall p :: p in Worklist(selected, r.cache) <==>
                    p in selected && p.link !in loaded && p.link !in stored
  {
  }

  /** The posts the completions are for, in completion order. */
  function Posts(cs: seq<Completion>): (ps: seq<Post>)
    ensures |ps| == |cs| && forall i :: 0 <= i < |cs| ==> ps[i] == cs[i].post
  {
    seq(|cs|, i requires 0 <= i < |cs| => cs[i].post)
  }

  /** What `as_completed(future_map)` can yield for a worklist: each submitted
      future exactly once, in some order; a worker returns no snippet only when
      it saw the stop flag, and the flag, once set, is still set when the loop
      looks at that future. */
  predicate AsCompleted(cs: seq<Completion>, w: seq<Post>) {
    && multiset(Posts(cs)) == multiset(w)
    && forall i :: 0 <= i < |cs| && cs[i].result == Returned(None) ==> cs[i].stopSeen
  }

  /** A run that is not stopped handles every submitted task and leaves every
      selected link cached, so a second run over the same selection takes the
      fast path. */
  lemma ScrapeCompletes(selected: seq<Post>, loaded: map<string, string>, cs: seq<Completion>, every: int)
    requires AsCompleted(cs, Worklist(selected, loaded))
    requires forall i :: 0 <= i < |cs| ==> !cs[i].stopSeen
    ensures var r := Scrape(selected, loaded, cs, every);
      (forall i :: 0 <= i < |selected| ==> selected[i].link in r.cache) && Worklist(selected, r.cache) == []
  {
    var r := Scrape(selected, loaded, cs, every);
    var w := Worklist(selected, loaded);
    if w != [] {
      assert Taken(cs) == cs;
      CompletedCovers(cs, w);
      forall i | 0 <= i < |selected| ensures selected[i].link in r.cache {
        if selected[i].link !in loaded {
          assert selected[i] in w;
        }
      }
    }
  }

  /** Unstopped completions for a worklist store every worklist link. */
  lemma CompletedCovers(cs: seq<Completion>, w: seq<Post>)
    requires AsCompleted(cs, w)
    requires forall i :: 0 <= i < |cs| ==> !cs[i].stopSeen
    ensures forall p :: p in w ==> p.link in Stored(cs)
  {
    StoredWithin(cs);
    forall p | p in w ensures p.link in Stored(cs) {
      assert p in multiset(Posts(cs));
      var j :| 0 <= j < |cs| && Posts(cs)[j] == p;
      assert Merged(cs[j]).Some?;
    }
  }

  /** The completion of one `fetch_post_content` call is stored under its link
      unless the worker saw the stop flag, and a failed request or status check
      is stored too, as the error card: it is not retried by a later run. */
  lemma WorkerResultStored(st: Loop, t: string, l: string, stop: bool, o: Extract.HttpOutcome, every: int)
    ensures var c := Completion(false, Post(t, l), Returned(Extract.FetchPostContent(t, l, stop, o)));
      var r := Step(st, c, every);
      && (stop ==> r.cache == st.cache)
      && (!stop ==> l in r.cache && r.cache[l] == Extract.FetchPostContent(t, l, stop, o).value)
      && (!stop && Extract.RaiseForStatus(o).Raised? ==>
            r.cache[l] == Extract.ErrorCard(t, Extract.RaiseForStatus(o).message, l))
  {
  }

  /** A handled completion whose worker was not stopped, or whose future
      raised, leaves its link cached at the end of the run, whatever the
      request gave. */
  lemma HandledStaysCached(selected: seq<Post>, loaded: map<string, string>, cs: seq<Completion>, every: int,
                           i: nat, o: Extract.HttpOutcome)
    requires i < |Taken(cs)|
    requires cs[i].result.Failed?
             || cs[i].result == Returned(Extract.FetchPostContent(cs[i].post.title, cs[i].post.link, false, o))
    ensures var r := Scrape(selected, loaded, cs, every);
      r.submitted != [] ==> cs[i].post.link in r.cache
  {
    var t := Taken(cs);
    StoredWithin(t);
    assert t[i] == cs[i];
    assert Merged(t[i]).Some?;
  }

  /** No cached snippet is the empty string. */
  predicate Filled(cache: map<string, string>) {
    forall k :: k in cache ==> cache[k] != ""
  }

  /** When the loaded cache and every merged snippet are non-empty, so is every cached snippet. */
  lemma {:induction false} DrainFilled(st: Loop, cs: seq<Completion>, every: int)
    requires Filled(st.cache)
    requires forall i :: 0 <= i < |cs| && Merged(cs[i]).Some? ==> Merged(cs[i]).value != ""
    ensures Filled(Drain(st, cs, every).cache)
    decreases |cs|
  {
    if cs != [] && !cs[0].stopSeen {
      assert forall i :: 1 <= i < |cs| ==> cs[1..][i - 1] == cs[i];
      DrainFilled(Step(st, cs[0], every), cs[1..], every);
    }
  }

  lemma ScrapeFilled(selected: seq<Post>, loaded: map<string, string>, cs: seq<Completion>, every: int)
    requires Filled(loaded)
    requires forall i :: 0 <= i < |cs| && Merged(cs[i]).Some? ==> Merged(cs[i]).value != ""
    ensures Filled(Scrape(selected, loaded, cs, every).cache)
  {
    var w := Worklist(selected, loaded);
    if w != [] {
      DrainFilled(Loop(loaded, |selected| - |w|, 0, [], 0), cs, every);
    }
  }

  /** A run that is not stopped, whose workers return only non-empty snippets,
      over a cache holding none empty, leaves a non-empty snippet for every
      selected link. */
  lemma ScrapeFillsSelection(selected: seq<Post>, loaded: map<string, string>, cs: seq<Completion>, every: int)
    requires AsCompleted(cs, Worklist(selected, loaded))
    requires forall i :: 0 <= i < |cs| ==> !cs[i].stopSeen
    requires forall i :: 0 <= i < |cs| && cs[i].result.Returned? && cs[i].result.snippet.Some? ==> cs[i].result.snippet.value != ""
    requires Filled(loaded)
    ensures var r := Scrape(selected, loaded, cs, every);
      forall i :: 0 <= i < |selected| ==> selected[i].link in r.cache && r.cache[selected[i].link] != ""
  {
    forall i | 0 <= i < |cs| && Merged(cs[i]).Some?
      ensures Merged(cs[i]).value != ""
    {
      if cs[i].result.Failed? {
        assert CrashCard(cs[i].post.title, cs[i].result.message)[0] == '<';
      }
    }
    ScrapeCompletes(selected, loaded, cs, every);
    ScrapeFilled(selected, loaded, cs, every);
  }

  /** With checkpoints every K completions and the loop started on a fresh
      count (`0 <= counter - last_checkpoint < K`), the gap stays below K and
      each checkpoint advances `last_checkpoint` by exactly K: after `f` new
      checkpoints, `f * K <= counter - initial last_checkpoint < (f + 1) * K`. */
  lemma {:induction false} DrainCheckpoints(st: Loop, cs: seq<Completion>, every: int)
    requires every >= 1 && 0 <= st.counter - st.lastCheckpoint < every
    ensures var r := Drain(st, cs, every);
      && 0 <= r.counter - r.lastCheckpoint < every
      && r.lastCheckpoint == st.lastCheckpoint + (|r.saves| - |st.saves|) * every
    decreases |cs|
  {
    if cs != [] && !cs[0].stopSeen {
      var next := Step(st, cs[0], every);
      DrainCheckpoints(next, cs[1..], every);
      var r := Drain(next, cs[1..], every);
      var f := |r.saves| - |next.saves|;
      if next.counter - st.lastCheckpoint >= every {
        assert next.lastCheckpoint == st.lastCheckpoint + every;
        assert (f + 1) * every == f * every + every;
      }
    }
  }

  /** When fewer than K posts were cached, a run that submits work writes one
      checkpoint per full K counted completions, then the final save:
      with `f = |saves| - 1`, `f * K <= counter < (f + 1) * K`. */
  lemma ScrapeCheckpointCount(selected: seq<Post>, loaded: map<string, string>, cs: seq<Completion>, every: int)
    requires every >= 1 && |selected| - |Worklist(selected, loaded)| < every
    requires Worklist(selected, loaded) != []
    ensures var r := Scrape(selected, loaded, cs, every);
      (|r.saves| - 1) * every <= r.counter < |r.saves| * every
  {
    var w := Worklist(selected, loaded);
    var st := Loop(loaded, |selected| - |w|, 0, [], 0);
    DrainCheckpoints(st, cs, every);
    var fin := Drain(st, cs, every);
    var r := Scrape(selected, loaded, cs, every);
    assert r == Run(fin.cache, w, fin.saves + [Save(fin.cache)], fin.handled, fin.counter);
    Bracket(|r.saves|, |fin.saves| - |st.saves|, every, fin.lastCheckpoint - st.lastCheckpoint, fin.counter);
  }

  lemma Bracket(n: int, f: int, every: int, last: int, counter: int)
    requires n == f + 1 && last == f * every && 0 <= counter - last < every
    ensures (n - 1) * every <= counter < n * every
  {
    assert n * every == f * every + every;
  }
}
