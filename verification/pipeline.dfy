/** The per-bookmark loop of `main()`: derive a file name from the slug of the
    description, render the bookmark through the template, and write the file
    unless it already exists (or the run is a dry run). */
module Pipeline {
  import opened Wrappers

  /** One bookmark as the API returns it, with the attributes the program
      copies into the template context. Times are UTC seconds. */
  datatype Pin = Pin(
    description: string,
    url: string,
    time: int,
    tags: seq<string>,
    extended: string,
    hash: string,
    meta: string,
    shared: bool,
    toread: bool)

  /** The template context built for one bookmark: its attributes plus `date`,
      the creation time in the local zone as ISO 8601 text. */
  datatype Context = Context(
    description: string,
    url: string,
    time: int,
    tags: seq<string>,
    extended: string,
    hash: string,
    meta: string,
    shared: bool,
    toread: bool,
    date: string)

  type Path = string

  /** The regular files of the disk: path to content. */
  type FileSystem = map<Path, string>

  /** What the loop receives from the rest of the run. The slug builder, the
      local-date formatter and the template are libraries; they are fixed for
      the whole batch, so each is a plain function. `render` yields `None`
      where the template engine raises. */
  datatype Renderer = Renderer(
    output: Path,
    slugOf: string -> string,
    localDate: int -> string,
    render: Context -> Option<string>)

  /** What the loop logs for one bookmark. */
  datatype Report =
    | RenderFailed(slug: string)
    | Wrote(path: Path)
    | AlreadyExists(path: Path)
    | DebugSkipped(path: Path)

  /** POSIX `os.path.join` of two components: an absolute second component
      replaces the first; otherwise one `/` separates them unless the first is
      empty or already ends in `/`. */
  function JoinPath(dir: Path, name: Path): (p: Path)
    ensures |name| <= |p| && p[|p| - |name|..] == name
    ensures |name| > 0 && name[0] == '/' ==> p == name
    ensures !(|name| > 0 && name[0] == '/') ==> |dir| <= |p| && p[..|dir|] == dir
    // a relative name follows the directory, separated by exactly one added
    // `/` unless the directory is empty or already ends in `/`
    ensures !(|name| > 0 && name[0] == '/') ==> p == dir + name || p == dir + "/" + name
    ensures !(|name| > 0 && name[0] == '/') ==>
      (p == dir + name <==> dir == "" || dir[|dir| - 1] == '/')
  {
    if |name| > 0 && name[0] == '/' then name
    else if dir == "" || dir[|dir| - 1] == '/' then dir + name
    else dir + "/" + name
  }

  /** Joining one directory with two relative names gives the same path
      exactly when the names are equal. */
  lemma JoinPathInjective(dir: Path, a: Path, b: Path)
    requires !(|a| > 0 && a[0] == '/') && !(|b| > 0 && b[0] == '/')
    ensures JoinPath(dir, a) == JoinPath(dir, b) <==> a == b
  {
  }

  function Slug(r: Renderer, pin: Pin): string {
    r.slugOf(pin.description)
  }

  /** The file a bookmark is written to: `<output>/<slug>.md`. */
  function TargetPath(r: Renderer, pin: Pin): Path {
    JoinPath(r.output, Slug(r, pin) + ".md")
  }

  function MakeContext(r: Renderer, pin: Pin): Context {
    Context(pin.description, pin.url, pin.time, pin.tags, pin.extended,
            pin.hash, pin.meta, pin.shared, pin.toread, r.localDate(pin.time))
  }

  function Rendered(r: Renderer, pin: Pin): Option<string> {
    r.render(MakeContext(r, pin))
  }

  predicate Succeeds(r: Renderer, pin: Pin) {
    Rendered(r, pin).Some?
  }

  /** Two bookmarks whose slugs are relative names target the same file
      exactly when their slugs agree: a slug collision is the only way two
      bookmarks compete for one file. */
  lemma TargetsCollideIffSlugsEqual(r: Renderer, a: Pin, b: Pin)
    requires !(|Slug(r, a)| > 0 && Slug(r, a)[0] == '/')
    requires !(|Slug(r, b)| > 0 && Slug(r, b)[0] == '/')
    ensures TargetPath(r, a) == TargetPath(r, b) <==> Slug(r, a) == Slug(r, b)
  {
    var na, nb := Slug(r, a) + ".md", Slug(r, b) + ".md";
    JoinPathInjective(r.output, na, nb);
    if na == nb {
      assert Slug(r, a) == na[..|na| - 3] == nb[..|nb| - 3] == Slug(r, b);
    }
  }

  /** One iteration of the loop over the fetched bookmarks. */
  function Step(r: Renderer, debug: bool, fs: FileSystem, pin: Pin): (res: (FileSystem, Report))
    // an existing file is never touched
    ensures forall p :: p in fs ==> p in res.0 && res.0[p] == fs[p]
    // a failed render is logged with its slug and changes nothing
    ensures res.1.RenderFailed? <==> !Succeeds(r, pin)
    ensures res.1.RenderFailed? ==> res.0 == fs && res.1.slug == Slug(r, pin)
    // a dry run renders but never writes
    ensures debug ==> res.0 == fs
    ensures debug && Succeeds(r, pin) ==> res.1 == DebugSkipped(TargetPath(r, pin))
    // otherwise the rendered text lands at the target exactly when nothing is there yet
    ensures !debug && Succeeds(r, pin) ==>
      if TargetPath(r, pin) in fs then res == (fs, AlreadyExists(TargetPath(r, pin)))
      else res == (fs[TargetPath(r, pin) := Rendered(r, pin).value], Wrote(TargetPath(r, pin)))
  {
    match Rendered(r, pin)
    case None => (fs, RenderFailed(Slug(r, pin)))
    case Some(out) =>
      var path := TargetPath(r, pin);
      if debug then (fs, DebugSkipped(path))
      else if path !in fs then (fs[path := out], Wrote(path))
      else (fs, AlreadyExists(path))
  }

  /** The loop over the fetched bookmarks, in fetch order, threading the
      file system through; one report per bookmark. */
  function WriteAll(r: Renderer, debug: bool, fs: FileSystem, pins: seq<Pin>): (res: (FileSystem, seq<Report>))
    ensures |res.1| == |pins|
    // files are only ever added, never removed or rewritten (a dry run
    // adds none either: see DryRunLeavesDisk)
    ensures forall p :: p in fs ==> p in res.0 && res.0[p] == fs[p]
    decreases |pins|
  {
    if |pins| == 0 then (fs, [])
    else
      var step := Step(r, debug, fs, pins[0]);
      var rest := WriteAll(r, debug, step.0, pins[1..]);
      (rest.0, [step.1] + rest.1)
  }

  /** Every bookmark of the batch gets a report, in order, and the report
      says "render failed" exactly for the bookmarks whose render raised;
      the others carry the bookmark's target path. */
  lemma {:induction false} ReportsMatchRenders(r: Renderer, debug: bool, fs: FileSystem, pins: seq<Pin>)
    ensures var reports := WriteAll(r, debug, fs, pins).1;
      forall i :: 0 <= i < |pins| ==>
        if Succeeds(r, pins[i]) then !reports[i].RenderFailed? && reports[i].path == TargetPath(r, pins[i])
        else reports[i] == RenderFailed(Slug(r, pins[i]))
    decreases |pins|
  {
    if |pins| > 0 {
      var step := Step(r, debug, fs, pins[0]);
      ReportsMatchRenders(r, debug, step.0, pins[1..]);
      var reports := WriteAll(r, debug, fs, pins).1;
      assert reports == [step.1] + WriteAll(r, debug, step.0, pins[1..]).1;
      forall i | 1 <= i < |pins|
        ensures pins[i] == pins[1..][i - 1] && reports[i] == WriteAll(r, debug, step.0, pins[1..]).1[i - 1]
      {
      }
    }
  }

  /** Bookmark `i` is the first one of the batch that rendered and targets `p`. */
  ghost predicate FirstSuccessAt(r: Renderer, pins: seq<Pin>, i: int, p: Path) {
    && 0 <= i < |pins|
    && Succeeds(r, pins[i])
    && TargetPath(r, pins[i]) == p
    && forall j :: 0 <= j < i ==> !(Succeeds(r, pins[j]) && TargetPath(r, pins[j]) == p)
  }

  /** When the first bookmark does not put a file at `p`, the first success at
      `p` is the same bookmark whether or not the first one is in the batch. */
  lemma FirstSuccessShift(r: Renderer, pins: seq<Pin>, i: int, p: Path)
    requires |pins| > 0
    requires !(Succeeds(r, pins[0]) && TargetPath(r, pins[0]) == p)
    ensures FirstSuccessAt(r, pins, i + 1, p) <==> FirstSuccessAt(r, pins[1..], i, p)
  {
    if FirstSuccessAt(r, pins[1..], i, p) {
      forall j | 0 <= j < i + 1
        ensures !(Succeeds(r, pins[j]) && TargetPath(r, pins[j]) == p)
      {
        if j > 0 {
          assert pins[j] == pins[1..][j - 1];
        }
      }
    }
    if FirstSuccessAt(r, pins, i + 1, p) {
      forall j | 0 <= j < i
        ensures !(Succeeds(r, pins[1..][j]) && TargetPath(r, pins[1..][j]) == p)
      {
        assert pins[1..][j] == pins[j + 1];
      }
    }
  }

  /** First successful render wins: a path that did not exist before the loop
      exists after a (non-dry) run exactly when some bookmark rendered and
      targets it, and then it holds the output of the first such bookmark;
      later bookmarks with the same slug are skipped. */
  lemma {:induction false} FirstSuccessWins(r: Renderer, fs: FileSystem, pins: seq<Pin>, p: Path)
    requires p !in fs
    ensures var after := WriteAll(r, false, fs, pins).0;
      && (p in after <==> exists i :: FirstSuccessAt(r, pins, i, p))
      && forall i :: FirstSuccessAt(r, pins, i, p) ==> p in after && after[p] == Rendered(r, pins[i]).value
    decreases |pins|
  {
    if |pins| > 0 {
      var fs1 := Step(r, false, fs, pins[0]).0;
      var after := WriteAll(r, false, fs, pins).0;
      assert after == WriteAll(r, false, fs1, pins[1..]).0;
      if Succeeds(r, pins[0]) && TargetPath(r, pins[0]) == p {
        assert fs1[p] == Rendered(r, pins[0]).value;
        assert FirstSuccessAt(r, pins, 0, p);
        forall i | FirstSuccessAt(r, pins, i, p)
          ensures i == 0
        {
        }
      } else {
        assert p !in fs1;
        FirstSuccessWins(r, fs1, pins[1..], p);
        assert !FirstSuccessAt(r, pins, 0, p);
        if p in after {
          var k :| FirstSuccessAt(r, pins[1..], k, p);
          FirstSuccessShift(r, pins, k, p);
        }
        forall i | FirstSuccessAt(r, pins, i, p)
          ensures p in after && after[p] == Rendered(r, pins[i]).value
        {
          FirstSuccessShift(r, pins, i - 1, p);
          assert pins[i] == pins[1..][i - 1];
        }
      }
    }
  }

  /** The loop handles the first bookmark, then the rest from the files it left. */
  lemma WriteAllUnfold(r: Renderer, debug: bool, fs: FileSystem, pins: seq<Pin>)
    requires |pins| > 0
    ensures var step := Step(r, debug, fs, pins[0]);
      var rest := WriteAll(r, debug, step.0, pins[1..]);
      WriteAll(r, debug, fs, pins) == (rest.0, [step.1] + rest.1)
  {
  }

  lemma ConcatAssoc<T>(x: seq<T>, y: seq<T>, z: seq<T>)
    ensures x + (y + z) == (x + y) + z
  {
  }

  /** The files the loop over `a + b` leaves are those the loop over `b`
      leaves when started from the files the loop over `a` left. */
  lemma {:induction false} AppendFiles(r: Renderer, debug: bool, fs: FileSystem, a: seq<Pin>, b: seq<Pin>)
    ensures WriteAll(r, debug, fs, a + b).0 == WriteAll(r, debug, WriteAll(r, debug, fs, a).0, b).0
    decreases |a|
  {
    if |a| > 0 {
      assert (a + b)[0] == a[0];
      assert (a + b)[1..] == a[1..] + b;
      var fs1 := Step(r, debug, fs, a[0]).0;
      AppendFiles(r, debug, fs1, a[1..], b);
      WriteAllUnfold(r, debug, fs, a);
      WriteAllUnfold(r, debug, fs, a + b);
    } else {
      assert a + b == b;
    }
  }

  /** The reports of the loop over `a + b` are those of the loop over `a`
      followed by those of the loop over `b` started where `a` left off. */
  lemma {:induction false} AppendReports(r: Renderer, debug: bool, fs: FileSystem, a: seq<Pin>, b: seq<Pin>)
    ensures WriteAll(r, debug, fs, a + b).1
         == WriteAll(r, debug, fs, a).1 + WriteAll(r, debug, WriteAll(r, debug, fs, a).0, b).1
    decreases |a|
  {
    if |a| > 0 {
      assert (a + b)[0] == a[0];
      assert (a + b)[1..] == a[1..] + b;
      var step := Step(r, debug, fs, a[0]);
      AppendReports(r, debug, step.0, a[1..], b);
      WriteAllUnfold(r, debug, fs, a);
      WriteAllUnfold(r, debug, fs, a + b);
      var rest := WriteAll(r, debug, step.0, a[1..]);
      ConcatAssoc([step.1], rest.1, WriteAll(r, debug, rest.0, b).1);
    } else {
      assert a + b == b;
      assert [] + WriteAll(r, debug, fs, b).1 == WriteAll(r, debug, fs, b).1;
    }
  }

  /** The loop over `a + b` is the loop over `a` followed by the loop over `b`. */
  lemma WriteAllAppend(r: Renderer, debug: bool, fs: FileSystem, a: seq<Pin>, b: seq<Pin>)
    ensures var first := WriteAll(r, debug, fs, a);
      var second := WriteAll(r, debug, first.0, b);
      WriteAll(r, debug, fs, a + b) == (second.0, first.1 + second.1)
  {
    AppendFiles(r, debug, fs, a, b);
    AppendReports(r, debug, fs, a, b);
  }

  /** Render failures are contained: a bookmark whose render fails leaves no
      trace on the disk, and every later bookmark is processed exactly as if
      it were not in the batch. */
  lemma FailedRenderIsInert(r: Renderer, debug: bool, fs: FileSystem, before: seq<Pin>, pin: Pin, after: seq<Pin>)
    requires !Succeeds(r, pin)
    ensures var withPin := WriteAll(r, debug, fs, before + [pin] + after);
      var without := WriteAll(r, debug, fs, before + after);
      && withPin.0 == without.0
      && withPin.1 == without.1[..|before|] + [RenderFailed(Slug(r, pin))] + without.1[|before|..]
  {
    var mid := WriteAll(r, debug, fs, before);
    WriteAllAppend(r, debug, fs, before + [pin], after);
    WriteAllAppend(r, debug, fs, before, [pin]);
    WriteAllAppend(r, debug, fs, before, after);
    assert [pin][0] == pin && [pin][1..] == [];
    assert Step(r, debug, mid.0, pin) == (mid.0, RenderFailed(Slug(r, pin)));
    assert WriteAll(r, debug, mid.0, [pin][1..]) == (mid.0, []);
    assert [RenderFailed(Slug(r, pin))] + [] == [RenderFailed(Slug(r, pin))];
    assert WriteAll(r, debug, mid.0, [pin]) == (mid.0, [RenderFailed(Slug(r, pin))]);
  }

  /** Once every bookmark that renders has its target on disk, the loop
      changes nothing and writes nothing. */
  lemma {:induction false} WriteAllStable(r: Renderer, fs: FileSystem, pins: seq<Pin>)
    requires forall i :: 0 <= i < |pins| && Succeeds(r, pins[i]) ==> TargetPath(r, pins[i]) in fs
    ensures WriteAll(r, false, fs, pins).0 == fs
    ensures forall i :: 0 <= i < |pins| ==> !WriteAll(r, false, fs, pins).1[i].Wrote?
    decreases |pins|
  {
    if |pins| > 0 {
      assert Step(r, false, fs, pins[0]).0 == fs;
      forall i | 0 <= i < |pins[1..]| && Succeeds(r, pins[1..][i])
        ensures TargetPath(r, pins[1..][i]) in fs
      {
        assert pins[1..][i] == pins[i + 1];
      }
      WriteAllStable(r, fs, pins[1..]);
    }
  }

  /** After the loop, the target of every bookmark that rendered is on disk. */
  lemma {:induction false} WriteAllCovers(r: Renderer, fs: FileSystem, pins: seq<Pin>)
    ensures forall i :: 0 <= i < |pins| && Succeeds(r, pins[i]) ==> TargetPath(r, pins[i]) in WriteAll(r, false, fs, pins).0
    decreases |pins|
  {
    if |pins| > 0 {
      var fs1 := Step(r, false, fs, pins[0]).0;
      WriteAllCovers(r, fs1, pins[1..]);
      forall i | 0 <= i < |pins| && Succeeds(r, pins[i])
        ensures TargetPath(r, pins[i]) in WriteAll(r, false, fs, pins).0
      {
        if i > 0 {
          assert pins[i] == pins[1..][i - 1];
        }
      }
    }
  }

  /** Running the loop again over the same bookmarks, from the files the
      first pass left, changes nothing and writes no file. */
  lemma WriteAllIdempotent(r: Renderer, debug: bool, fs: FileSystem, pins: seq<Pin>)
    ensures var once := WriteAll(r, debug, fs, pins).0;
      && WriteAll(r, debug, once, pins).0 == once
      && forall i :: 0 <= i < |pins| ==> !WriteAll(r, debug, once, pins).1[i].Wrote?
  {
    if !debug {
      WriteAllCovers(r, fs, pins);
      WriteAllStable(r, WriteAll(r, debug, fs, pins).0, pins);
    } else {
      DryRunLeavesDisk(r, fs, pins);
    }
  }

  /** A dry run leaves the files exactly as they were and reports no write. */
  lemma {:induction false} DryRunLeavesDisk(r: Renderer, fs: FileSystem, pins: seq<Pin>)
    ensures WriteAll(r, true, fs, pins).0 == fs
    ensures forall i :: 0 <= i < |pins| ==> !WriteAll(r, true, fs, pins).1[i].Wrote?
    decreases |pins|
  {
    if |pins| > 0 {
      DryRunLeavesDisk(r, fs, pins[1..]);
      var reports := WriteAll(r, true, fs, pins).1;
      assert reports[1..] == WriteAll(r, true, fs, pins[1..]).1;
    }
  }
}
