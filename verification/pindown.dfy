/** One invocation of `main()` as a state transition: from the disk before the
    run (settings file and output files) and what the remote service reports,
    to an outcome and the disk after the run. */
module Pindown {
  import opened Wrappers
  import opened ConfigStore
  import opened Pipeline

  /** The command line and the one property of the output directory the
      program checks. `timezone` is the `--timezone` override. */
  datatype Request = Request(
    output: Path,
    outputWritable: bool,
    debug: bool,
    timezone: Option<string>)

  /** The bookmark service: the collection's last-modified time (UTC) and the
      bookmarks added since a given time, in the order it returns them. */
  datatype Remote = Remote(
    lastModified: int,
    postsSince: int -> seq<Pin>)

  /** The libraries the run relies on, fixed for the run:
      `knownZone`  - the zone database accepts the name;
      `parseTime`  - reads a stored marker; `None` where the parser raises or
                     yields a time that cannot be compared with a UTC time;
      `formatTime` - ISO 8601 text of a UTC time;
      `localDate`  - ISO 8601 text of a UTC time in the named zone;
      `slugOf`     - the slug builder, stop words and length limit included;
      `render`     - the template; `None` where rendering raises. */
  datatype Libraries = Libraries(
    knownZone: string -> bool,
    parseTime: string -> Option<int>,
    formatTime: int -> string,
    localDate: (string, int) -> string,
    slugOf: string -> string,
    render: Context -> Option<string>)

  /** What the run can change: the settings file and the output files. */
  datatype Disk = Disk(ini: IniFile, files: FileSystem)

  /** Exceptions nobody catches; each ends the process before any bookmark is
      fetched. */
  datatype Fault =
    | MissingKey(key: string)       // a required setting is absent
    | UnknownZone(zone: string)     // the configured zone is not in the database
    | UnboundZone                   // the override zone was rejected, so no zone is bound
    | BadMarker(text: string)       // the stored marker cannot be read

  datatype Outcome =
    | Unwritable                    // the output directory cannot be written to
    | NoConfig                      // the settings file has no [pindown] section
    | Crashed(fault: Fault)
    | NoUpdate                      // nothing changed remotely since the marker
    | Completed(since: int, reports: seq<Report>)  // the batch fetched from `since` was processed

  datatype RunResult = RunResult(outcome: Outcome, disk: Disk)

  /** The zone bookmark dates are shown in: the override when given, else the
      stored `local_tz`. A rejected override is logged but leaves no zone
      bound, so the run fails at its next use of the zone. */
  function LocalZone(req: Request, lib: Libraries, config: Config): (z: Result<string, Fault>)
    ensures z.Success? ==> lib.knownZone(z.value)
  {
    match req.timezone
    case Some(zone) =>
      if lib.knownZone(zone) then Success(zone) else Failure(UnboundZone)
    case None =>
      if LocalTzKey !in config then Failure(MissingKey(LocalTzKey))
      else if lib.knownZone(config[LocalTzKey]) then Success(config[LocalTzKey])
      else Failure(UnknownZone(config[LocalTzKey]))
  }

  /** The sync marker: the stored `last_import` when there is one, otherwise
      the current time. The defaulted value lives only in memory. */
  function LastImport(config: Config, now: int, lib: Libraries): Result<int, Fault> {
    if LastImportKey in config then
      match lib.parseTime(config[LastImportKey])
      case Some(stamp) => Success(stamp)
      case None => Failure(BadMarker(config[LastImportKey]))
    else Success(now)
  }

  function MakeRenderer(req: Request, lib: Libraries, zone: string): Renderer {
    Renderer(req.output, lib.slugOf, t => lib.localDate(zone, t), lib.render)
  }

  /** `main()` after argument parsing. */
  function Run(req: Request, now: int, remote: Remote, lib: Libraries, disk: Disk): (r: RunResult)
    // an unwritable output directory ends the run before anything else
    ensures r.outcome == Unwritable <==> !req.outputWritable
    // every exit other than a completed batch leaves the disk as it was
    ensures !r.outcome.Completed? ==> r.disk == disk
    // a dry run leaves the disk as it was
    ensures req.debug ==> r.disk == disk
    // existing output files are never rewritten or removed
    ensures forall p :: p in disk.files ==> p in r.disk.files && r.disk.files[p] == disk.files[p]
    // a completed batch reports every fetched bookmark
    ensures r.outcome.Completed? ==> |r.outcome.reports| == |remote.postsSince(r.outcome.since)|
    // a completed batch only runs when the remote changed after the marker it fetched from
    ensures r.outcome.Completed? ==> r.outcome.since < remote.lastModified
    // a completed real run persists the loaded settings with only the marker moved
    // to the remote's last-modified time, however many renders failed
    ensures r.outcome.Completed? && !req.debug ==>
      && Section in disk.ini
      && r.disk.ini == Save(WithMarker(disk.ini[Section], lib.formatTime(remote.lastModified)))
  {
    if !req.outputWritable then RunResult(Unwritable, disk)
    else match Load(disk.ini)
    case None => RunResult(NoConfig, disk)
    case Some(config) =>
      match LocalZone(req, lib, config)
      case Failure(fault) => RunResult(Crashed(fault), disk)
      case Success(zone) =>
        if ApiTokenKey !in config then RunResult(Crashed(MissingKey(ApiTokenKey)), disk)
        else match LastImport(config, now, lib)
        case Failure(fault) => RunResult(Crashed(fault), disk)
        case Success(last) =>
          if remote.lastModified <= last then RunResult(NoUpdate, disk)
          else
            var pins := remote.postsSince(last);
            var renderer := MakeRenderer(req, lib, zone);
            DryRunLeavesDisk(renderer, disk.files, pins);
            var batch := WriteAll(renderer, req.debug, disk.files, pins);
            var ini := if req.debug then disk.ini
                       else Save(WithMarker(config, lib.formatTime(remote.lastModified)));
            RunResult(Completed(last, batch.1), Disk(ini, batch.0))
  }

  /** The settings let the run reach the service, the marker aside: the
      output directory is writable, the `[pindown]` section exists, the zone
      in use is known (the override when given, else the stored `local_tz`)
      and the API token is stored. */
  ghost predicate SetupPasses(req: Request, lib: Libraries, disk: Disk) {
    && req.outputWritable
    && Section in disk.ini
    && ApiTokenKey in disk.ini[Section]
    && match req.timezone
       case Some(zone) => lib.knownZone(zone)
       case None => LocalTzKey in disk.ini[Section] && lib.knownZone(disk.ini[Section][LocalTzKey])
  }

  /** `t` is the marker the run compares with: the stored `last_import` as
      the date parser reads it, or `now` when none is stored. */
  ghost predicate MarkerIs(now: int, lib: Libraries, config: Config, t: int) {
    if LastImportKey in config then lib.parseTime(config[LastImportKey]) == Some(t) else t == now
  }

  /** The run only gets as far as comparing with the remote when setup
      passes and the stored marker, if any, is readable. */
  lemma ReachesRemoteOnlyAfterSetup(req: Request, now: int, remote: Remote, lib: Libraries, disk: Disk)
    ensures var r := Run(req, now, remote, lib, disk);
      r.outcome == NoUpdate || r.outcome.Completed? ==>
        && SetupPasses(req, lib, disk)
        && exists t :: MarkerIs(now, lib, disk.ini[Section], t)
  {
    var r := Run(req, now, remote, lib, disk);
    if r.outcome == NoUpdate || r.outcome.Completed? {
      var t := LastImport(disk.ini[Section], now, lib).value;
      assert MarkerIs(now, lib, disk.ini[Section], t);
    }
  }

  /** Once setup passes, with `t` the marker read from the stored text (or
      `now`): the run does nothing exactly when the remote has not changed
      after `t`, and completes exactly when it has, fetching from `t`. */
  lemma NoUpdateExactly(req: Request, now: int, remote: Remote, lib: Libraries, disk: Disk, t: int)
    requires SetupPasses(req, lib, disk)
    requires MarkerIs(now, lib, disk.ini[Section], t)
    ensures var r := Run(req, now, remote, lib, disk);
      && (r.outcome == NoUpdate <==> remote.lastModified <= t)
      && (r.outcome.Completed? <==> t < remote.lastModified)
      && (r.outcome.Completed? ==> r.outcome.since == t)
  {
  }

  /** On a first run (no stored marker) the marker is the current time: the
      fetch window starts now, so nothing older is imported. When the remote
      has not changed since now the run ends without storing the defaulted
      marker; when the remote's clock is ahead of now, a real run completes
      and stores the remote's time like any other run. */
  lemma FirstRunNoBackfill(req: Request, now: int, remote: Remote, lib: Libraries, disk: Disk)
    requires Section in disk.ini && LastImportKey !in disk.ini[Section]
    ensures var r := Run(req, now, remote, lib, disk);
      && (r.outcome.Completed? ==> r.outcome.since == now)
      && (remote.lastModified <= now ==> r.disk == disk && LastImportKey !in Load(r.disk.ini).value)
      && (r.outcome.Completed? && !req.debug ==>
            Load(r.disk.ini).value[LastImportKey] == lib.formatTime(remote.lastModified))
  {
  }

  /** A run that gets past the writability check quits, leaving everything as
      it was, exactly when the settings file has no `[pindown]` section. */
  lemma MissingSectionQuits(req: Request, now: int, remote: Remote, lib: Libraries, disk: Disk)
    ensures Run(req, now, remote, lib, disk).outcome == NoConfig <==> req.outputWritable && Section !in disk.ini
    ensures req.outputWritable && Section !in disk.ini ==> Run(req, now, remote, lib, disk) == RunResult(NoConfig, disk)
  {
  }

  /** A `--timezone` the zone database rejects never falls back to the stored
      `local_tz`, whatever that holds: no zone is bound and the run dies
      before contacting the service, leaving everything as it was. */
  lemma RejectedOverrideCrashes(req: Request, now: int, remote: Remote, lib: Libraries, disk: Disk)
    requires req.outputWritable && Section in disk.ini
    requires req.timezone.Some? && !lib.knownZone(req.timezone.value)
    ensures Run(req, now, remote, lib, disk) == RunResult(Crashed(UnboundZone), disk)
  {
  }

  /** Without an override, the stored `local_tz` must name a known zone: a
      missing key or an unknown name ends the run with everything as it was. */
  lemma StoredZoneFailuresCrash(req: Request, now: int, remote: Remote, lib: Libraries, disk: Disk)
    requires req.outputWritable && Section in disk.ini && req.timezone.None?
    ensures var config := disk.ini[Section];
      var r := Run(req, now, remote, lib, disk);
      && (LocalTzKey !in config ==> r == RunResult(Crashed(MissingKey(LocalTzKey)), disk))
      && (LocalTzKey in config && !lib.knownZone(config[LocalTzKey]) ==>
            r == RunResult(Crashed(UnknownZone(config[LocalTzKey])), disk))
  {
  }

  /** Once the zone and the API token are in place, a stored marker the date
      parser rejects ends the run with that text as the fault and everything
      as it was; the marker is not defaulted to now. */
  lemma UnreadableMarkerCrashes(req: Request, now: int, remote: Remote, lib: Libraries, disk: Disk)
    requires SetupPasses(req, lib, disk)
    requires LastImportKey in disk.ini[Section] && lib.parseTime(disk.ini[Section][LastImportKey]).None?
    ensures Run(req, now, remote, lib, disk) == RunResult(Crashed(BadMarker(disk.ini[Section][LastImportKey])), disk)
  {
  }

  /** The files a completed real run leaves are the old files plus, for each
      new path, the output of the first fetched bookmark that rendered and
      targets it. */
  lemma RunFirstSuccessWins(req: Request, now: int, remote: Remote, lib: Libraries, disk: Disk, p: Path)
    requires p !in disk.files
    ensures var r := Run(req, now, remote, lib, disk);
      r.outcome.Completed? && !req.debug ==>
        var zone := LocalZone(req, lib, disk.ini[Section]).value;
        var rd := MakeRenderer(req, lib, zone);
        var pins := remote.postsSince(r.outcome.since);
        && (p in r.disk.files <==> exists i :: FirstSuccessAt(rd, pins, i, p))
        && forall i :: FirstSuccessAt(rd, pins, i, p) ==> p in r.disk.files && r.disk.files[p] == Rendered(rd, pins[i]).value
  {
    var r := Run(req, now, remote, lib, disk);
    if r.outcome.Completed? && !req.debug {
      var zone := LocalZone(req, lib, disk.ini[Section]).value;
      FirstSuccessWins(MakeRenderer(req, lib, zone), disk.files, remote.postsSince(r.outcome.since), p);
    }
  }

  /** Running again with the remote unchanged does nothing, provided the
      marker text the run stores reads back as the time it was made from.
      This holds even when some renders failed in the first run: against an
      unchanged remote, a bookmark whose render failed is not fetched again. */
  lemma RerunIsNoOp(req: Request, now: int, later: int, remote: Remote, lib: Libraries, disk: Disk)
    requires lib.parseTime(lib.formatTime(remote.lastModified)) == Some(remote.lastModified)
    ensures var first := Run(req, now, remote, lib, disk);
      first.outcome.Completed? && !req.debug ==>
        Run(req, later, remote, lib, first.disk) == RunResult(NoUpdate, first.disk)
  {
  }
}
