/**
 artikel.py `process_one`: take the first link of the saved queue, fetch it,
 write the extracted article to `output/<slug of the title>/result.html`, and
 save the rest of the queue. There is no `try`: a failing request ends the run
 before anything is written, so the queue file keeps the link.
 */
module QueueOne {
  import opened Common
  import opened Text
  import opened Extract
  import opened Slug

  const OutputDir := "output"
  const ResultFile := "result.html"
  const Untitled := "tanpa-judul"

  /** `load_queue()`: the saved list, or `[]` when the queue file does not exist. */
  function LoadQueue(saved: Option<seq<string>>): (q: seq<string>)
    ensures saved.None? ==> q == []
    ensures saved.Some? ==> q == saved.value
  {
    saved.GetOr([])
  }

  /** `os.path.join(a, b)` (POSIX): an absolute `b` replaces `a`; otherwise a
      '/' is put between them unless `a` is empty or already ends with one. */
  function PathJoin(a: string, b: string): (r: string)
    ensures b != [] && b[0] == '/' ==> r == b
    ensures (b == [] || b[0] != '/') && a != [] && a[|a| - 1] != '/' ==> r == a + "/" + b
    ensures (b == [] || b[0] != '/') && (a == [] || a[|a| - 1] == '/') ==> r == a + b
  {
    if b != [] && b[0] == '/' then b
    else if a == [] || a[|a| - 1] == '/' then a + b
    else a + "/" + b
  }

  /** The folder for a page: the slug of its title, or of "tanpa-judul" when it has none. */
  function Folder(p: Page): string {
    Slugify(p.title.GetOr(Untitled))
  }

  /** What one run does: nothing (empty queue), crash (request failed or
      4xx/5xx), or write one file and save the shortened queue. */
  datatype OneRun =
    | Idle
    | Crashed(message: string)
    | Processed(dir: string, path: string, content: string, queue: seq<string>)

  /** `process_one()`, with `get` standing for `requests.get` on one URL. */
  function ProcessOne(saved: Option<seq<string>>, get: string -> HttpOutcome): (r: OneRun)
    ensures r.Idle? <==> LoadQueue(saved) == []
    ensures r.Crashed? <==> LoadQueue(saved) != [] && RaiseForStatus(get(LoadQueue(saved)[0])).Raised?
    ensures r.Crashed? ==> r.message == RaiseForStatus(get(LoadQueue(saved)[0])).message
    ensures r.Processed? ==>
      var q := LoadQueue(saved);
      && [q[0]] + r.queue == q
      && get(q[0]).Response?
      && !IsHttpError(get(q[0]).status)
      && r.content == QueueContent(get(q[0]).page)
  {
    var q := LoadQueue(saved);
    if q == [] then Idle
    else
      var link := q[0];
      var o := RaiseForStatus(get(link));
      if o.Raised? then Crashed(o.message)
      else
        var dir := PathJoin(OutputDir, Folder(o.page));
        assert [q[0]] + q[1..] == q;
        Processed(dir, PathJoin(dir, ResultFile), QueueContent(o.page), q[1..])
  }

  /** The result file sits directly in the output directory or in one folder
      below it whose name is the page's slug; it never escapes `output/`. */
  lemma {:induction false} ResultPath(saved: Option<seq<string>>, get: string -> HttpOutcome)
    requires ProcessOne(saved, get).Processed?
    ensures var r := ProcessOne(saved, get);
      var folder := Folder(get(LoadQueue(saved)[0]).page);
      && SlugChars(folder)
      && (folder == [] ==> r.path == "output/result.html")
      && (folder != [] ==> r.path == "output/" + folder + "/result.html")
  {
    var q := LoadQueue(saved);
    var p := get(q[0]).page;
    var folder := Folder(p);
    SlugifyShape(p.title.GetOr(Untitled));
    var dir := PathJoin(OutputDir, folder);
    if folder != [] {
      assert folder[0] != '/';
      assert dir == "output/" + folder;
      assert dir[|dir| - 1] == folder[|folder| - 1];
    }
  }

  /** A page without a `<title>` is written to `output/tanpa-judul/result.html`. */
  lemma {:induction false} UntitledFolder(p: Page)
    requires p.title.None?
    ensures Folder(p) == Untitled
  {
    var t := Untitled;
    assert forall k :: 0 <= k < |t| ==> IsAlnum(t[k]) || t[k] == '-';
    assert forall k :: 0 <= k < |t| - 1 ==> t[k] != '-' || t[k + 1] != '-';
    SlugFixed(t);
  }

  /** Runs until the queue is empty or a request fails: each successful run
      writes one file and drops exactly the link it processed. */
  function Drain(q: seq<string>, get: string -> HttpOutcome): (written: seq<string>)
    decreases |q|
  {
    if q == [] then []
    else
      var r := ProcessOne(Some(q), get);
      if r.Processed? then [r.path] + Drain(r.queue, get) else []
  }

  /** Repeated runs write one file per link of the longest prefix whose
      requests succeed, and stop at the first failing link. */
  lemma {:induction false} DrainStops(q: seq<string>, get: string -> HttpOutcome) returns (n: nat)
    ensures n <= |q|
    ensures |Drain(q, get)| == n
    ensures n < |q| ==> RaiseForStatus(get(q[n])).Raised?
    ensures forall k :: 0 <= k < n ==> !RaiseForStatus(get(q[k])).Raised?
    decreases |q|
  {
    if q == [] {
      n := 0;
    } else {
      var r := ProcessOne(Some(q), get);
      if r.Processed? {
        assert r.queue == q[1..];
        var m := DrainStops(q[1..], get);
        n := m + 1;
        assert forall k :: 1 <= k < n ==> q[k] == q[1..][k - 1];
      } else {
        n := 0;
      }
    }
  }
}
