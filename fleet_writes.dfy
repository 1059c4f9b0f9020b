// Where the provisioning run of spawn_overlays.py writes: every file or
// directory the script itself creates, writes or removes lies in its work
// area: the overlays and seeds directories below the working directory,
// instances.csv, and the pid files workdir / "<prefix>-k.pid", which lie
// outside the working directory when the prefix is absolute. Inputs outside
// that area are never written; an input inside it, such as a base image
// named seeds/seed-1.iso, is.

module FleetWrites {
  import opened Wrappers
  import opened Text
  import opened Paths
  import IPv4
  import IsoBuilder
  import opened Fleet

  /** The paths an action itself writes, creates or removes. hdiutil
      removes a stale tmp_out and writes tmp_out + ".iso"; the other
      builders write their output. A builder command counts as soon as it
      is issued, whether or not it then succeeds, so this is what the
      script may write, an over-approximation of what it does write. QEMU's writes to the disks it is handed
      (the overlay and the shared vars.fd) are the guest's, not the
      script's. */
  function Written(x: Action): set<string>
  {
    match x
    case MakeDir(d) => {d}
    case ListInterfaces => {}
    case CreateOverlay(_, o) => {o}
    case WriteFile(d, ct) => {Child(d, FileName(ct))}
    case BuildIso(cmd) =>
      if cmd.tool == IsoBuilder.Hdiutil then {cmd.output, cmd.output + ".iso"} else {cmd.output}
    case ImageInfo(_) => {}
    case Launch(vm) => if vm.pidfile.Some? then {vm.pidfile.value} else {}
    case WriteCsv(p, _) => {p}
  }

  /** p names something inside directory d. */
  predicate Below(d: string, p: string)
  {
    |d| < |p| && p[..|d|] == d && p[|d|] == '/'
  }

  /** The work area of a run: the overlays and seeds directories and what
      lies below them, the pid file of an instance, and instances.csv. */
  ghost predicate InWorkArea(a: Args, p: string)
  {
    var w := a.workdir;
    || p == OverlaysDir(w) || p == SeedsDir(w)
    || Below(OverlaysDir(w), p) || Below(SeedsDir(w), p)
    || p == CsvPath(w)
    || exists k: nat :: p == PidPath(w, InstanceName(a.namePrefix, k))
  }

  /** Every path the actions write lies in the work area. */
  ghost predicate WritesInWorkArea(a: Args, s: seq<Action>)
  {
    forall x, p :: x in s && p in Written(x) ==> InWorkArea(a, p)
  }

  lemma WritesAppend(a: Args, s: seq<Action>, t: seq<Action>)
    requires WritesInWorkArea(a, s) && WritesInWorkArea(a, t)
    ensures WritesInWorkArea(a, s + t)
  {
    forall x, p | x in s + t && p in Written(x)
      ensures InWorkArea(a, p)
    {
      assert x in s || x in t;
    }
  }

  lemma PrefixConcat<T>(d: seq<T>, r: seq<T>)
    ensures d <= d + r
  {
    assert (d + r)[..|d|] == d;
  }

  /** A '/'-led name appended to d is inside d. */
  lemma BelowSlash(d: string, y: string)
    requires |y| > 0 && y[0] == '/'
    ensures Below(d, d + y)
  {
    assert (d + y)[..|d|] == d;
  }

  /** Whatever is appended to a path inside d stays inside d. */
  lemma BelowAppend(d: string, p: string, y: string)
    requires Below(d, p)
    ensures Below(d, p + y)
  {
    assert (p + y)[..|d|] == p[..|d|];
  }

  // ---------------------------------------------------------------------
  // The paths of one instance

  lemma OverlayInArea(a: Args, i: nat)
    ensures InWorkArea(a, OverlayPath(a.workdir, i))
  {
    var o := OverlaysDir(a.workdir);
    BelowSlash(o, "/root-");
    BelowAppend(o, o + "/root-", Decimal(i));
    BelowAppend(o, o + "/root-" + Decimal(i), ".qcow2");
  }

  lemma SeedInitBelow(w: string, i: nat)
    ensures Below(SeedsDir(w), SeedInitPath(w, i))
  {
    BelowSlash(SeedsDir(w), "/seed-init-");
    BelowAppend(SeedsDir(w), SeedsDir(w) + "/seed-init-", Decimal(i));
  }

  lemma SeedInitInArea(a: Args, i: nat)
    ensures InWorkArea(a, SeedInitPath(a.workdir, i))
  {
    SeedInitBelow(a.workdir, i);
  }

  /** The seed files' names are relative. */
  lemma FileNameRelative(ct: Content)
    ensures |FileName(ct)| > 0 && FileName(ct)[0] != '/'
  {
  }

  /** The file a seed text is written to lies inside the seed-init directory. */
  lemma SeedFileInArea(a: Args, i: nat, ct: Content)
    ensures InWorkArea(a, Child(SeedInitPath(a.workdir, i), FileName(ct)))
  {
    var s, d, n := SeedsDir(a.workdir), SeedInitPath(a.workdir, i), FileName(ct);
    FileNameRelative(ct);
    SeedInitBelow(a.workdir, i);
    BelowAppend(s, d, "/");
    BelowAppend(s, d + "/", n);
  }

  /** tmp_out, the image hdiutil writes from it, and the seed ISO. */
  lemma SeedIsoInArea(a: Args, i: nat)
    ensures InWorkArea(a, SeedStemPath(a.workdir, i))
    ensures InWorkArea(a, SeedStemPath(a.workdir, i) + ".iso")
    ensures InWorkArea(a, SeedIsoPath(a.workdir, i))
  {
    var s := SeedsDir(a.workdir);
    BelowSlash(s, "/seed-");
    BelowAppend(s, s + "/seed-", Decimal(i));
    BelowAppend(s, SeedStemPath(a.workdir, i), ".iso");
  }

  /** An absolute --name-prefix takes the pid file out of the working
      directory: pathlib's `/` keeps only the absolute right operand. */
  lemma AbsolutePrefixPidFile(w: string, prefix: string, i: nat)
    requires |prefix| > 0 && prefix[0] == '/'
    ensures PidPath(w, InstanceName(prefix, i)) == prefix + "-" + Decimal(i) + ".pid"
  {
    assert (InstanceName(prefix, i) + ".pid")[0] == '/';
  }

  /** The pid file of /etc/x-1 is not below a working directory /w. */
  lemma PidFileEscapesWorkdir()
    ensures PidPath("/w", InstanceName("/etc/x", 1)) == "/etc/x-1.pid"
    ensures !Below("/w", PidPath("/w", InstanceName("/etc/x", 1)))
  {
    assert Decimal(1) == "1";
    AbsolutePrefixPidFile("/w", "/etc/x", 1);
    assert "/etc/x-1.pid"[1] == 'e';
  }

  lemma PidInArea(a: Args, i: nat)
    ensures InWorkArea(a, PidPath(a.workdir, InstanceName(a.namePrefix, i)))
  {
  }

  // ---------------------------------------------------------------------
  // The actions of one instance

  lemma SeedFilesWrites(c: Config, i: nat, ip: string)
    ensures WritesInWorkArea(c.args, InstanceFiles(c, i, ip))
  {
    var s := InstanceFiles(c, i, ip);
    forall x, p | x in s && p in Written(x)
      ensures InWorkArea(c.args, p)
    {
      assert x.WriteFile? && x.dir == SeedInitPath(c.args.workdir, i);
      SeedFileInArea(c.args, i, x.content);
    }
  }

  lemma IsoActionsWrites(c: Config, h: Host, i: nat)
    ensures WritesInWorkArea(c.args, IsoActions(SeedIsoBuild(c, h, i)))
  {
    var a := c.args;
    var w := a.workdir;
    var b := SeedIsoBuild(c, h, i);
    var first: seq<Action> := if b.hdiutil.Some? then [BuildIso(b.hdiutil.value)] else [];
    var second: seq<Action> := if b.fallback.Some? then [BuildIso(b.fallback.value)] else [];
    SeedIsoInArea(a, i);
    assert b.hdiutil.Some? ==> b.hdiutil.value == IsoBuilder.Command(IsoBuilder.Hdiutil, SeedStemPath(w, i), SeedInitPath(w, i));
    assert WritesInWorkArea(a, first);
    assert b.fallback.Some? ==> b.fallback.value.output == SeedIsoPath(w, i) && b.fallback.value.tool != IsoBuilder.Hdiutil;
    assert WritesInWorkArea(a, second);
    WritesAppend(a, first, second);
  }

  lemma LaunchWrites(c: Config, i: nat)
    ensures WritesInWorkArea(c.args, [Launch(QemuOf(c, i))])
  {
    PidInArea(c.args, i);
  }

  /** The one path a launch itself writes is the `-pidfile` argument of
      its qemu_cmd, and nothing without it. */
  lemma LaunchWritesPidArgument(c: Config, i: nat)
    ensures var r := QemuArgv(QemuOf(c, i));
      && (c.args.noDaemonize ==> Written(Launch(QemuOf(c, i))) == {})
      && (!c.args.noDaemonize ==> r[25] == "-pidfile" && Written(Launch(QemuOf(c, i))) == {r[26]})
  {
    InstanceQemuArgv(c, i);
    var r := QemuArgv(QemuOf(c, i));
    if !c.args.noDaemonize {
      assert r[26] == r[25..27][1];
    }
  }

  /** Steps 2) and 3) write only the seed-init directory and files and the
      seed ISO of their own instance. */
  lemma BuiltWrites(c: Config, h: Host, i: nat, ip: string)
    ensures WritesInWorkArea(c.args, [MakeDir(SeedInitPath(c.args.workdir, i))] + InstanceFiles(c, i, ip) + IsoActions(SeedIsoBuild(c, h, i)))
  {
    var a := c.args;
    var dir := [MakeDir(SeedInitPath(a.workdir, i))];
    SeedInitInArea(a, i);
    assert WritesInWorkArea(a, dir);
    SeedFilesWrites(c, i, ip);
    IsoActionsWrites(c, h, i);
    WritesAppend(a, dir, InstanceFiles(c, i, ip));
    WritesAppend(a, dir + InstanceFiles(c, i, ip), IsoActions(SeedIsoBuild(c, h, i)));
  }

  /** Step 4) adds at most the pid file to what was built before it. */
  lemma LaunchedWrites(c: Config, h: Host, i: nat, built: seq<Action>)
    requires WritesInWorkArea(c.args, built)
    ensures WritesInWorkArea(c.args, built + (if "hdiutil" in h.onPath then [ImageInfo(SeedIsoPath(c.args.workdir, i))] else []) + [Launch(QemuOf(c, i))])
  {
    var a := c.args;
    var info: seq<Action> := if "hdiutil" in h.onPath then [ImageInfo(SeedIsoPath(a.workdir, i))] else [];
    assert WritesInWorkArea(a, info);
    WritesAppend(a, built, info);
    LaunchWrites(c, i);
    WritesAppend(a, built + info, [Launch(QemuOf(c, i))]);
  }

  /** What steps 2) to 4) do is the seed-init directory alone (dry run),
      then the files and the ISO build, then the launch. */
  lemma SeedAndLaunchShape(c: Config, h: Host, i: nat)
    requires i >= 1 && c.start + i <= IPv4.MaxAddr
    ensures var w := c.args.workdir;
      var built := [MakeDir(SeedInitPath(w, i))] + InstanceFiles(c, i, IPv4.Format(c.start + i - 1)) + IsoActions(SeedIsoBuild(c, h, i));
      var s := SeedAndLaunch(c, h, i).actions;
      || s == [MakeDir(SeedInitPath(w, i))]
      || s == built
      || s == built + (if "hdiutil" in h.onPath then [ImageInfo(SeedIsoPath(w, i))] else []) + [Launch(QemuOf(c, i))]
  {
    var b := SeedIsoBuild(c, h, i);
    if !c.args.dryRun && b.result.Ok? && h.isoPresent(i) {
      assert SeedAndLaunch(c, h, i).result.Err? <==> !h.launchOk(i);
    }
  }

  /** Steps 2) to 4) write only the seed-init files, the seed ISO and the
      pid file of their own instance. */
  lemma SeedAndLaunchWrites(c: Config, h: Host, i: nat)
    requires i >= 1 && c.start + i <= IPv4.MaxAddr
    ensures WritesInWorkArea(c.args, SeedAndLaunch(c, h, i).actions)
  {
    var a := c.args;
    var dir := [MakeDir(SeedInitPath(a.workdir, i))];
    var built := dir + InstanceFiles(c, i, IPv4.Format(c.start + i - 1)) + IsoActions(SeedIsoBuild(c, h, i));
    SeedAndLaunchShape(c, h, i);
    SeedInitInArea(a, i);
    assert WritesInWorkArea(a, dir);
    BuiltWrites(c, h, i, IPv4.Format(c.start + i - 1));
    LaunchedWrites(c, h, i, built);
  }

  /** One iteration writes only in the work area. */
  lemma InstanceWrites(c: Config, h: Host, i: nat)
    requires i >= 1
    ensures WritesInWorkArea(c.args, Instance(c, h, i).actions)
  {
    if c.start + i <= IPv4.MaxAddr {
      var created := if Creates(c, h, i) then [CreateOverlay(c.base, OverlayPath(c.args.workdir, i))] else [];
      OverlayInArea(c.args, i);
      assert WritesInWorkArea(c.args, created);
      if !Creates(c, h, i) || h.createOk(i) {
        SeedAndLaunchWrites(c, h, i);
        WritesAppend(c.args, created, SeedAndLaunch(c, h, i).actions);
      }
    }
  }

  // ---------------------------------------------------------------------
  // The whole run

  /** The loop writes only what its iterations write. */
  lemma {:induction false} FoldWrites(a: Args, steps: seq<Step>)
    requires forall k :: 0 <= k < |steps| ==> WritesInWorkArea(a, steps[k].actions)
    ensures WritesInWorkArea(a, Fold(steps).actions)
    decreases |steps|
  {
    if steps != [] {
      var init := steps[..|steps| - 1];
      FoldWrites(a, init);
      var last := steps[|steps| - 1];
      if Fold(init).result.Ok? {
        WritesAppend(a, Fold(init).actions, last.actions);
      }
    }
  }

  /** The loop over indices 1..n writes only in the work area. */
  lemma LoopWrites(c: Config, h: Host, n: nat)
    ensures WritesInWorkArea(c.args, Fold(Steps(c, h, n)).actions)
  {
    StepsWrite(c, h, n);
    FoldWrites(c.args, Steps(c, h, n));
  }

  /** Each of the loop's iterations writes only in the work area. */
  lemma StepsWrite(c: Config, h: Host, n: nat)
    ensures forall k :: 0 <= k < n ==> WritesInWorkArea(c.args, Steps(c, h, n)[k].actions)
  {
    forall k | 0 <= k < n
      ensures WritesInWorkArea(c.args, Steps(c, h, n)[k].actions)
    {
      assert Steps(c, h, n)[k] == Instance(c, h, k + 1);
      InstanceWrites(c, h, k + 1);
    }
  }

  /** The directories and the interface listing before the checks. */
  lemma PrologueWrites(a: Args, h: Host)
    ensures WritesInWorkArea(a, Prologue(a, h))
  {
  }

  /** Writing instances.csv after the loop stays in the work area. */
  lemma EpilogueWrites(a: Args, pre: seq<Action>, body: Run)
    requires WritesInWorkArea(a, pre) && WritesInWorkArea(a, body.actions)
    ensures WritesInWorkArea(a, Epilogue(a, pre, body).actions)
  {
    WritesAppend(a, pre, body.actions);
    if body.result.Ok? && !a.dryRun {
      var csv := [WriteCsv(CsvPath(a.workdir), body.result.value)];
      assert WritesInWorkArea(a, csv);
      WritesAppend(a, pre + body.actions, csv);
    }
  }

  /** Every path main() itself writes, creates or removes lies in its work
      area: the overlays and seeds directories and below, the pid files of
      its instances, and instances.csv. */
  lemma MainWritesOnlyWorkArea(a: Args, h: Host)
    ensures WritesInWorkArea(a, Main(a, h).actions)
  {
    PrologueWrites(a, h);
    if Setup(a, h).Ok? {
      var c := Setup(a, h).value;
      var body := Fold(Steps(c, h, Iterations(a)));
      LoopWrites(c, h, Iterations(a));
      assert Main(a, h) == Epilogue(a, Prologue(a, h), body);
      EpilogueWrites(a, Prologue(a, h), body);
    }
  }

  /** A base image, vars file and BIOS outside the work area are never
      written, created or removed by main() itself. */
  lemma MainLeavesInputsAlone(a: Args, h: Host)
    requires !InWorkArea(a, Child(a.workdir, a.baseQcow2))
    requires !InWorkArea(a, Child(a.workdir, a.vars))
    requires !InWorkArea(a, a.bios)
    ensures forall x :: x in Main(a, h).actions ==>
              && Child(a.workdir, a.baseQcow2) !in Written(x)
              && Child(a.workdir, a.vars) !in Written(x)
              && a.bios !in Written(x)
  {
    MainWritesOnlyWorkArea(a, h);
  }

  // ---------------------------------------------------------------------
  // An input inside the work area

  /** The loop's trace starts with the trace of its first iterations. */
  lemma {:induction false} FoldActionsPrefix(steps: seq<Step>, m: nat)
    requires m <= |steps|
    ensures Fold(steps[..m]).actions <= Fold(steps).actions
    decreases |steps|
  {
    if m < |steps| {
      var init := steps[..|steps| - 1];
      assert init[..m] == steps[..m];
      FoldActionsPrefix(init, m);
      PrefixConcat(Fold(init).actions, steps[|steps| - 1].actions);
    } else {
      assert steps[..m] == steps;
    }
  }

  lemma InPrefix(x: Action, s: seq<Action>, t: seq<Action>)
    requires x in s && s <= t
    ensures x in t
  {
    var j :| 0 <= j < |s| && s[j] == x;
    assert t[j] == x;
  }

  /** Instance 1 of a real run whose seed-ISO build succeeds issues a
      builder command that writes seeds/seed-1.iso: hdiutil writes tmp_out +
      ".iso", which is that path, and mkisofs or xorrisofs write it as
      their output. */
  lemma FirstInstanceWritesSeedIso(c: Config, h: Host)
    requires !c.args.dryRun && c.start + 1 <= IPv4.MaxAddr
    requires !Creates(c, h, 1) || h.createOk(1)
    requires SeedIsoBuild(c, h, 1).result.Ok?
    ensures exists x :: x in Instance(c, h, 1).actions && SeedIsoPath(c.args.workdir, 1) in Written(x)
  {
    var w := c.args.workdir;
    var b := SeedIsoBuild(c, h, 1);
    var x;
    if b.fallback.Some? {
      x := BuildIso(b.fallback.value);
      assert b.fallback.value.output == SeedIsoPath(w, 1);
    } else {
      x := BuildIso(IsoBuilder.Command(IsoBuilder.Hdiutil, SeedStemPath(w, 1), SeedInitPath(w, 1)));
      assert b.hdiutil == Some(IsoBuilder.Command(IsoBuilder.Hdiutil, SeedStemPath(w, 1), SeedInitPath(w, 1)));
      HdiutilWritesImage(SeedStemPath(w, 1), SeedInitPath(w, 1));
    }
    assert x in IsoActions(b);
    assert x in SeedAndLaunch(c, h, 1).actions;
    assert x in Instance(c, h, 1).actions;
  }

  /** The trace of the whole loop holds the trace of its first iteration. */
  lemma LoopKeepsFirst(c: Config, h: Host, n: nat, x: Action)
    requires n >= 1 && x in Instance(c, h, 1).actions
    ensures x in Fold(Steps(c, h, n)).actions
  {
    var steps := Steps(c, h, n);
    assert steps[0] == Instance(c, h, 1);
    assert Fold(steps[..1]) == Extend(Run([], Ok([])), steps[0]);
    FoldActionsPrefix(steps, 1);
    InPrefix(x, Fold(steps[..1]).actions, Fold(steps).actions);
  }

  /** main()'s trace holds the loop's. */
  lemma MainKeepsLoop(a: Args, h: Host, x: Action)
    requires Setup(a, h).Ok? && x in Fold(Steps(Setup(a, h).value, h, Iterations(a))).actions
    ensures x in Main(a, h).actions
  {
    var body := Fold(Steps(Setup(a, h).value, h, Iterations(a)));
    assert Main(a, h) == Epilogue(a, Prologue(a, h), body);
    assert x in Prologue(a, h) + body.actions;
  }

  /** "seeds/seed-1.iso" below the working directory is instance 1's seed
      ISO. */
  lemma SeedIsoAsBase(w: string)
    ensures Child(w, "seeds/seed-1.iso") == SeedIsoPath(w, 1)
  {
    assert Decimal(1) == "1";
  }

  /** A base image named "seeds/seed-1.iso" passes the existence check, as
      any existing file does, and is then written over by instance 1's
      seed-ISO build whenever that build succeeds, whichever tool it uses. */
  lemma BaseInSeedsIsOverwritten(a: Args, h: Host)
    requires a.baseQcow2 == "seeds/seed-1.iso" && Setup(a, h).Ok?
    requires a.count >= 1 && !a.dryRun && Setup(a, h).value.start + 1 <= IPv4.MaxAddr
    requires OverlayPath(a.workdir, 1) in h.existing || h.createOk(1)
    requires SeedIsoBuild(Setup(a, h).value, h, 1).result.Ok?
    ensures exists x :: x in Main(a, h).actions && Child(a.workdir, a.baseQcow2) in Written(x)
  {
    var c := Setup(a, h).value;
    FirstInstanceWritesSeedIso(c, h);
    var x :| x in Instance(c, h, 1).actions && SeedIsoPath(a.workdir, 1) in Written(x);
    LoopKeepsFirst(c, h, Iterations(a), x);
    MainKeepsLoop(a, h, x);
    SeedIsoAsBase(a.workdir);
  }

  /** hdiutil writes tmp_out + ".iso". */
  lemma HdiutilWritesImage(out: string, src: string)
    ensures out + ".iso" in Written(BuildIso(IsoBuilder.Command(IsoBuilder.Hdiutil, out, src)))
  {
  }
}
