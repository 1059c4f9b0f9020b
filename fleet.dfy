// main() of spawn_overlays.py: create `count` overlay VMs with sequential
// static addresses. For instance i (1-based) it derives a name, an address
// and four artifact paths, creates the qcow2 overlay unless it exists,
// renders the cloud-init seed files, builds the seed ISO and launches QEMU,
// recording one row per instance; finally it writes instances.csv.
//
// Every external effect is an Action in a trace; what the host answers
// (file existence, tool availability, exit statuses, pid-file contents)
// is the Host input.

module Fleet {
  import opened Wrappers
  import opened Text
  import opened Paths
  import IPv4
  import Dns
  import Templates
  import IsoBuilder

  /** The parsed command line. */
  datatype Args = Args(
    count: int,
    startIp: string,
    namePrefix: string,
    bridge: string,
    baseQcow2: string,
    vars: string,
    bios: string,
    smp: int,
    mem: int,
    iface: string,
    prefix: int,
    gateway: string,
    dns: string,
    workdir: string,      // already resolved
    noDaemonize: bool,
    dryRun: bool)

  /** What the host answers. `existing` is the set of files present when
      the run starts; the per-index answers belong to instance i. */
  datatype Host = Host(
    onPath: set<string>,                  // shutil.which
    existing: set<string>,                // Path.exists() before the run
    createOk: nat -> bool,                // qemu-img create exits with 0
    iso: nat -> IsoBuilder.Host,          // build_seed_iso's answers
    isoPresent: nat -> bool,              // seed ISO exists after the build
    launchOk: nat -> bool,                // qemu-system-aarch64 exits with 0
    pidText: nat -> Option<string>)       // the pid file's text, if readable

  /** A QEMU launch: the values the argument vector is built from. The pid
      file is present exactly when QEMU is daemonized. */
  datatype Qemu = Qemu(
    smp: int, mem: int, bios: string, vars: string, disk: string,
    seedIso: string, bridge: string, name: string, pidfile: Option<string>)

  /** One line of instances.csv. */
  datatype Row = Row(name: string, ip: string, disk: string, seedIso: string, pid: string)

  datatype Action =
    | MakeDir(dir: string)                          // ensure_dir
    | ListInterfaces                                // run(["ifconfig"], check=False)
    | CreateOverlay(base: string, overlay: string)  // qemu-img create -f qcow2 -F qcow2 -b base overlay
    | WriteFile(dir: string, content: Content)       // path.write_text, path = dir / FileName(content)
    | BuildIso(cmd: IsoBuilder.Command)
    | ImageInfo(iso: string)                        // hdiutil imageinfo, check=False
    | Launch(vm: Qemu)
    | WriteCsv(path: string, rows: seq<Row>)

  /** What a seed file holds: a template with the values it is formatted
      with, or a fixed text; FileText renders it. */
  datatype Content =
    | UserDataOf(hostname: string, iface: string, ip: string, prefix: string, gateway: string)
    | NetworkConfigOf(iface: string, ip: string, prefix: string, gateway: string, dnsList: string)
    | MetaDataOf(hostname: string)
    | DisableNetworkConfig
    | CloudConfigExtra

  datatype Failure =
    | BaseMissing | VarsMissing | BiosMissing       // sys.exit before the loop
    | BadGateway                                    // guess_gateway raised
    | BadStartIp                                    // ip_address raised
    | AddressOverflow(index: nat)                   // curr_ip += 1 past 255.255.255.255
    | CreateFailed(index: nat)
    | IsoFailed(index: nat, error: IsoBuilder.IsoError)
    | SeedIsoMissing(index: nat)
    | LaunchFailed(index: nat)

  /** The trace of a run (or of part of one) and how it ended. */
  datatype Run = Run(actions: seq<Action>, result: Result<seq<Row>, Failure>)

  /** The trace of one instance and its row. */
  datatype Step = Step(actions: seq<Action>, result: Result<Row, Failure>)

  // ---------------------------------------------------------------------
  // Names and paths

  function OverlaysDir(w: string): string { w + "/overlays" }

  function SeedsDir(w: string): string { w + "/seeds" }

  function InstanceName(prefix: string, i: nat): string { prefix + "-" + Decimal(i) }

  function OverlayPath(w: string, i: nat): string { OverlaysDir(w) + "/root-" + Decimal(i) + ".qcow2" }

  function SeedInitPath(w: string, i: nat): string { SeedsDir(w) + "/seed-init-" + Decimal(i) }

  function SeedStemPath(w: string, i: nat): string { SeedsDir(w) + "/seed-" + Decimal(i) }

  function SeedIsoPath(w: string, i: nat): string { SeedStemPath(w, i) + ".iso" }

  function PidPath(w: string, name: string): string { Child(w, name + ".pid") }

  function CsvPath(w: string): string { w + "/instances.csv" }

  // ---------------------------------------------------------------------
  // Setup before the loop

  /** What the loop works with once the checks before it have passed. */
  datatype Config = Config(
    args: Args, base: string, vars: string, bios: string,
    gateway: string, dnsList: string, start: IPv4.Addr)

  /** The directories and the optional interface listing that precede the checks. */
  function Prologue(a: Args, h: Host): seq<Action>
  {
    [MakeDir(OverlaysDir(a.workdir)), MakeDir(SeedsDir(a.workdir))]
      + (if "ifconfig" in h.onPath then [ListInterfaces] else [])
  }

  /** The existence checks, the gateway default, DNS normalisation and the
      parse of the start address, in the script's order. */
  function Setup(a: Args, h: Host): (r: Result<Config, Failure>)
    ensures r.Ok? ==> r.value.args == a
    ensures r.Ok? ==> r.value.base in h.existing && r.value.vars in h.existing && r.value.bios in h.existing
    ensures r.Ok? ==> r.value.base == Child(a.workdir, a.baseQcow2) && r.value.vars == Child(a.workdir, a.vars)
    ensures r.Ok? ==> IPv4.Parse(a.startIp) == Some(r.value.start)
    ensures r.Ok? ==> Some(r.value.gateway)
                      == (if a.gateway != "" then Some(a.gateway) else IPv4.GuessGateway(a.startIp, a.prefix))
    ensures r.Ok? ==> r.value.dnsList == Dns.NormalizeDns(a.dns)
    ensures r.Err? <==> (Child(a.workdir, a.baseQcow2) !in h.existing || Child(a.workdir, a.vars) !in h.existing
                         || a.bios !in h.existing
                         || (a.gateway == "" && IPv4.GuessGateway(a.startIp, a.prefix).None?)
                         || IPv4.Parse(a.startIp).None?)
  {
    var base := Child(a.workdir, a.baseQcow2);
    var vars := Child(a.workdir, a.vars);
    if base !in h.existing then Err(BaseMissing)
    else if vars !in h.existing then Err(VarsMissing)
    else if a.bios !in h.existing then Err(BiosMissing)
    else
      var gateway := if a.gateway != "" then Some(a.gateway) else IPv4.GuessGateway(a.startIp, a.prefix);
      if gateway.None? then Err(BadGateway)
      else
        match IPv4.Parse(a.startIp)
        case None => Err(BadStartIp)
        case Some(start) =>
          Ok(Config(a, base, vars, a.bios, gateway.value, Dns.NormalizeDns(a.dns), start))
  }

  // ---------------------------------------------------------------------
  // One instance

  /** The text written for a seed file. */
  function FileText(x: Content): string
  {
    match x
    case UserDataOf(hostname, iface, ip, prefix, gateway) => Templates.UserData(hostname, iface, ip, prefix, gateway)
    case NetworkConfigOf(iface, ip, prefix, gateway, dnsList) => Templates.NetworkConfig(iface, ip, prefix, gateway, dnsList)
    case MetaDataOf(hostname) => Templates.MetaData(hostname)
    case DisableNetworkConfig => Templates.DisableNetCfg
    case CloudConfigExtra => Templates.CloudCfgExtra
  }

  /** The file a seed text is written to, inside the seed-init directory. */
  function FileName(x: Content): string
  {
    match x
    case UserDataOf(_, _, _, _, _) => "user-data"
    case NetworkConfigOf(_, _, _, _, _) => "network-config"
    case MetaDataOf(_) => "meta-data"
    case DisableNetworkConfig => "99-disable-network-config.cfg"
    case CloudConfigExtra => "99-cloud-config.cfg"
  }

  /** The five seed-init files of instance i, which has address ip, in the
      order of the script's dict. */
  function InstanceFiles(c: Config, i: nat, ip: string): seq<Action>
  {
    var a := c.args;
    var seedInit := SeedInitPath(a.workdir, i);
    var name := InstanceName(a.namePrefix, i);
    var prefix := IntToString(a.prefix);
    [WriteFile(seedInit, UserDataOf(name, a.iface, ip, prefix, c.gateway)),
     WriteFile(seedInit, NetworkConfigOf(a.iface, ip, prefix, c.gateway, c.dnsList)),
     WriteFile(seedInit, MetaDataOf(name)),
     WriteFile(seedInit, DisableNetworkConfig),
     WriteFile(seedInit, CloudConfigExtra)]
  }

  /** build_seed_iso(seed_init, seed_iso) for instance i, with tmp_out the
      seed ISO path without ".iso" and hdiutil's image the seed ISO itself
      (SeedIsoBuildIsBuildSeedIso). */
  function SeedIsoBuild(c: Config, h: Host, i: nat): IsoBuilder.Attempt
  {
    var w := c.args.workdir;
    IsoBuilder.Chain(SeedInitPath(w, i), SeedIsoPath(w, i), SeedStemPath(w, i), Some(SeedIsoPath(w, i)), h.iso(i))
  }

  /** "seed-" followed by digits holds neither '/' nor '.'. */
  lemma SeedStemChars(i: nat)
    ensures '/' !in "seed-" + Decimal(i) && '.' !in "seed-" + Decimal(i)
  {
    var d := Decimal(i);
    var t := "seed-" + d;
    forall k | 0 <= k < |t| ensures t[k] != '/' && t[k] != '.' {
      if k >= 5 { assert t[k] == d[k - 5] && IsDigit(d[k - 5]); }
    }
  }

  lemma SeedIsoBuildIsBuildSeedIso(c: Config, h: Host, i: nat)
    ensures IsoBuilder.BuildSeedIso(SeedInitPath(c.args.workdir, i), SeedIsoPath(c.args.workdir, i), h.iso(i))
         == SeedIsoBuild(c, h, i)
  {
    var w := c.args.workdir;
    var stem := "seed-" + Decimal(i);
    SeedStemChars(i);
    assert SeedStemPath(w, i) == SeedsDir(w) + "/" + stem;
    assert SeedIsoPath(w, i) == SeedsDir(w) + "/" + stem + ".iso";
    IsoBuilder.SeedIsoNeedsNoRename(SeedInitPath(w, i), SeedsDir(w), stem, h.iso(i));
  }

  /** Runs build_seed_iso for instance i. */
  method BuildSeedIsoFor(c: Config, h: Host, i: nat)
    returns (hdiutil: Option<IsoBuilder.Command>, fallback: Option<IsoBuilder.Command>,
             result: Result<IsoBuilder.Tool, IsoBuilder.IsoError>)
    ensures IsoBuilder.Attempt(hdiutil, fallback, result) == SeedIsoBuild(c, h, i)
  {
    var w := c.args.workdir;
    hdiutil, fallback, result := IsoBuilder.RunBuildSeedIso(SeedInitPath(w, i), SeedIsoPath(w, i), h.iso(i));
    SeedIsoBuildIsBuildSeedIso(c, h, i);
  }

  /** The builder commands a seed-ISO build issued. */
  function IsoActions(b: IsoBuilder.Attempt): seq<Action>
  {
    (if b.hdiutil.Some? then [BuildIso(b.hdiutil.value)] else [])
      + (if b.fallback.Some? then [BuildIso(b.fallback.value)] else [])
  }

  function QemuOf(c: Config, i: nat): Qemu
  {
    var a := c.args;
    var name := InstanceName(a.namePrefix, i);
    Qemu(a.smp, a.mem, c.bios, c.vars, OverlayPath(a.workdir, i), SeedIsoPath(a.workdir, i),
      a.bridge, name, if a.noDaemonize then None else Some(PidPath(a.workdir, name)))
  }

  /** qemu_cmd: the fixed options, then either the foreground tail or the
      daemon tail with the pid file. */
  function QemuArgv(q: Qemu): (r: seq<string>)
    ensures |r| == if q.pidfile.None? then 25 else 31
    ensures r[..8] == ["sudo", "qemu-system-aarch64", "-accel", "hvf", "-machine", "virt,highmem=on", "-cpu", "host"]
    ensures r[8..12] == ["-smp", IntToString(q.smp), "-m", IntToString(q.mem)]
    ensures r[12..16] == ["-bios", q.bios, "-drive", "if=pflash,format=raw,unit=1,file=" + q.vars]
    // the overlay is uncached with discard, the seed ISO read-only
    ensures r[16..20] == ["-drive", "if=virtio,file=" + q.disk + ",format=qcow2,cache=none,discard=unmap",
                          "-drive", "if=virtio,file=" + q.seedIso + ",format=raw,readonly=on"]
    ensures r[20..24] == ["-nic", "vmnet-bridged,ifname=" + q.bridge + ",model=virtio-net-pci", "-name", q.name]
    ensures r[|r| - 1] == "-nographic" <==> q.pidfile.None?
    ensures q.pidfile.Some? ==> r[24..] == ["-daemonize", "-pidfile", q.pidfile.value, "-serial", "null", "-monitor", "none"]
  {
    var machine := ["sudo", "qemu-system-aarch64", "-accel", "hvf", "-machine", "virt,highmem=on", "-cpu", "host"];
    var sizes := ["-smp", IntToString(q.smp), "-m", IntToString(q.mem)];
    var firmware := ["-bios", q.bios, "-drive", "if=pflash,format=raw,unit=1,file=" + q.vars];
    var disks := ["-drive", "if=virtio,file=" + q.disk + ",format=qcow2,cache=none,discard=unmap",
                  "-drive", "if=virtio,file=" + q.seedIso + ",format=raw,readonly=on"];
    var net := ["-nic", "vmnet-bridged,ifname=" + q.bridge + ",model=virtio-net-pci", "-name", q.name];
    var tail := if q.pidfile.None? then ["-nographic"]
      else ["-daemonize", "-pidfile", q.pidfile.value, "-serial", "null", "-monitor", "none"];
    ConcatSlices(machine, sizes, firmware, disks, net, tail);
    machine + sizes + firmware + disks + net + tail
  }

  /** main's qemu_cmd for instance i: the BIOS and the shared vars file
      from the arguments, the instance's own overlay (uncached, with
      discard) and its own seed ISO (read-only), its name, and its pid file
      workdir / "<name>.pid" unless --no-daemonize is given. */
  lemma InstanceQemuArgv(c: Config, i: nat)
    ensures var r := QemuArgv(QemuOf(c, i));
      var w := c.args.workdir;
      var name := InstanceName(c.args.namePrefix, i);
      && r[13] == c.bios
      && r[15] == "if=pflash,format=raw,unit=1,file=" + c.vars
      && r[17] == "if=virtio,file=" + OverlayPath(w, i) + ",format=qcow2,cache=none,discard=unmap"
      && r[19] == "if=virtio,file=" + SeedIsoPath(w, i) + ",format=raw,readonly=on"
      && r[23] == name
      && (r[|r| - 1] == "-nographic" <==> c.args.noDaemonize)
      && (!c.args.noDaemonize ==> r[25..27] == ["-pidfile", PidPath(w, name)])
  {
    var r := QemuArgv(QemuOf(c, i));
    assert r[13] == r[12..16][1] && r[15] == r[12..16][3];
    assert r[17] == r[16..20][1] && r[19] == r[16..20][3];
    assert r[23] == r[20..24][3];
    if !c.args.noDaemonize {
      assert r[25..27] == r[24..][1..3];
    }
  }

  /** Each part of a concatenation of six parts is the slice at its offset. */
  lemma ConcatSlices<T>(a: seq<T>, b: seq<T>, c: seq<T>, d: seq<T>, e: seq<T>, f: seq<T>)
    ensures var s := a + b + c + d + e + f;
      var i, j, k, l, m := |a|, |a| + |b|, |a| + |b| + |c|, |a| + |b| + |c| + |d|, |a| + |b| + |c| + |d| + |e|;
      && s[..i] == a && s[i..j] == b && s[j..k] == c && s[k..l] == d && s[l..m] == e && s[m..] == f
  {
    var s := a + b + c + d + e + f;
    var i, j, k, l, m := |a|, |a| + |b|, |a| + |b| + |c|, |a| + |b| + |c| + |d|, |a| + |b| + |c| + |d| + |e|;
    assert s[..i] == a;
    assert s[i..j] == b;
    assert s[j..k] == c;
    assert s[k..l] == d;
    assert s[l..m] == e;
    assert s[m..] == f;
  }

  /** The pid column: the stripped pid-file text, or "" when there is none. */
  function PidValue(t: Option<string>): string
  {
    if t.Some? then Strip(t.value) else ""
  }

  /** Whether instance i issues the qemu-img create. */
  predicate Creates(c: Config, h: Host, i: nat)
  {
    !c.args.dryRun && OverlayPath(c.args.workdir, i) !in h.existing
  }

  /** The loop body for index i (the specification of ProvisionOne). */
  function Instance(c: Config, h: Host, i: nat): Step
    requires i >= 1
  {
    if c.start + i > IPv4.MaxAddr then Step([], Err(AddressOverflow(i)))
    else
      var created := if Creates(c, h, i) then [CreateOverlay(c.base, OverlayPath(c.args.workdir, i))] else [];
      if Creates(c, h, i) && !h.createOk(i) then Step(created, Err(CreateFailed(i)))
      else
        var rest := SeedAndLaunch(c, h, i);
        Step(created + rest.actions, rest.result)
  }

  /** Steps 2) to 4) of iteration i, after the overlay step: the seed-init
      directory, then, unless this is a dry run, the seed files, the seed
      ISO and the launch (the specification of RunSeedAndLaunch). */
  function SeedAndLaunch(c: Config, h: Host, i: nat): Step
    requires i >= 1 && c.start + i <= IPv4.MaxAddr
  {
    var a := c.args;
    var w := a.workdir;
    var ip := IPv4.Format(c.start + i - 1);
    var row := Row(InstanceName(a.namePrefix, i), ip, OverlayPath(w, i), SeedIsoPath(w, i), "");
    var dir := [MakeDir(SeedInitPath(w, i))];
    if a.dryRun then Step(dir, Ok(row))
    else
      var b := SeedIsoBuild(c, h, i);
      var built := dir + InstanceFiles(c, i, ip) + IsoActions(b);
      if b.result.Err? then Step(built, Err(IsoFailed(i, b.result.error)))
      else if !h.isoPresent(i) then Step(built, Err(SeedIsoMissing(i)))
      else
        var launched := built + (if "hdiutil" in h.onPath then [ImageInfo(SeedIsoPath(w, i))] else [])
          + [Launch(QemuOf(c, i))];
        if !h.launchOk(i) then Step(launched, Err(LaunchFailed(i)))
        else Step(launched, Ok(row.(pid := PidValue(h.pidText(i)))))
  }

  /** One more iteration after `prev`: the loop has already stopped once
      an iteration failed; otherwise the step's trace follows, and its row
      is appended or its failure ends the run. */
  function Extend(prev: Run, s: Step): Run
  {
    if prev.result.Err? then prev
    else Run(prev.actions + s.actions,
      if s.result.Err? then Err(s.result.error) else Ok(prev.result.value + [s.result.value]))
  }

  /** The loop over a sequence of iterations, up to the first failure. */
  function Fold(steps: seq<Step>): (r: Run)
    ensures r.result.Ok? ==> |r.result.value| == |steps|
  {
    if steps == [] then Run([], Ok([]))
    else Extend(Fold(steps[..|steps| - 1]), steps[|steps| - 1])
  }

  lemma FoldAppend(steps: seq<Step>, s: Step)
    ensures Fold(steps + [s]) == Extend(Fold(steps), s)
  {
    assert (steps + [s])[..|steps|] == steps;
  }

  /** Once an iteration has failed, later iterations change nothing. */
  lemma {:induction false} FoldStopsAtFailure(steps: seq<Step>, m: nat)
    requires m <= |steps| && Fold(steps[..m]).result.Err?
    ensures Fold(steps) == Fold(steps[..m])
    decreases |steps|
  {
    if m < |steps| {
      var init := steps[..|steps| - 1];
      assert init[..m] == steps[..m];
      FoldStopsAtFailure(init, m);
    } else {
      assert steps[..m] == steps;
    }
  }

  /** The iterations for indices 1..n. */
  function Steps(c: Config, h: Host, n: nat): (r: seq<Step>)
    ensures |r| == n
  {
    seq(n, k requires 0 <= k < n => Instance(c, h, k + 1))
  }

  lemma StepsExtend(c: Config, h: Host, n: nat)
    ensures Steps(c, h, n + 1) == Steps(c, h, n) + [Instance(c, h, n + 1)]
  {
  }

  lemma StepsPrefix(c: Config, h: Host, m: nat, n: nat)
    requires m <= n
    ensures Steps(c, h, n)[..m] == Steps(c, h, m)
  {
  }

  function Iterations(a: Args): nat { if a.count > 0 then a.count else 0 }

  /** The whole of main(). */
  function Main(a: Args, h: Host): Run
  {
    match Setup(a, h)
    case Err(f) => Run(Prologue(a, h), Err(f))
    case Ok(c) => Epilogue(a, Prologue(a, h), Fold(Steps(c, h, Iterations(a))))
  }

  /** After the loop: instances.csv is written when every instance succeeded
      and this is not a dry run. */
  function Epilogue(a: Args, pre: seq<Action>, body: Run): Run
  {
    if body.result.Ok? && !a.dryRun then
      Run(pre + body.actions + [WriteCsv(CsvPath(a.workdir), body.result.value)], body.result)
    else Run(pre + body.actions, body.result)
  }

  // ---------------------------------------------------------------------
  // The imperative loop

  /** One iteration of the loop, step by step. */
  method ProvisionOne(c: Config, h: Host, i: nat, currIp: int)
    returns (actions: seq<Action>, result: Result<Row, Failure>)
    requires i >= 1 && currIp == c.start + i - 1
    ensures Step(actions, result) == Instance(c, h, i)
    ensures result.Ok? ==> currIp + 1 <= IPv4.MaxAddr
  {
    actions := [];
    if currIp + 1 > IPv4.MaxAddr {
      return actions, Err(AddressOverflow(i));
    }
    // 1) the overlay
    var ovlDisk := OverlayPath(c.args.workdir, i);
    if !c.args.dryRun && ovlDisk !in h.existing {
      actions := [CreateOverlay(c.base, ovlDisk)];
      if !h.createOk(i) {
        return actions, Err(CreateFailed(i));
      }
    }
    var rest;
    rest, result := RunSeedAndLaunch(c, h, i, currIp);
    actions := actions + rest;
  }

  /** Steps 2) to 4) of one iteration. */
  method RunSeedAndLaunch(c: Config, h: Host, i: nat, currIp: int)
    returns (actions: seq<Action>, result: Result<Row, Failure>)
    requires i >= 1 && currIp == c.start + i - 1 && currIp + 1 <= IPv4.MaxAddr
    ensures Step(actions, result) == SeedAndLaunch(c, h, i)
  {
    var a := c.args;
    var w := a.workdir;
    var name := InstanceName(a.namePrefix, i);
    var ip := IPv4.Format(currIp);
    var ovlDisk := OverlayPath(w, i);
    var seedInit := SeedInitPath(w, i);
    var seedIso := SeedIsoPath(w, i);
    // 2) the seed files
    actions := [MakeDir(seedInit)];
    if a.dryRun {
      return actions, Ok(Row(name, ip, ovlDisk, seedIso, ""));
    }
    actions := actions + InstanceFiles(c, i, ip);
    // 3) the seed ISO
    var hdiutil, fallback, built := BuildSeedIsoFor(c, h, i);
    actions := actions + IsoActions(IsoBuilder.Attempt(hdiutil, fallback, built));
    if built.Err? {
      return actions, Err(IsoFailed(i, built.error));
    }
    // 4) the launch
    if !h.isoPresent(i) {
      return actions, Err(SeedIsoMissing(i));
    }
    if "hdiutil" in h.onPath {
      actions := actions + [ImageInfo(seedIso)];
    }
    actions := actions + [Launch(QemuOf(c, i))];
    if !h.launchOk(i) {
      return actions, Err(LaunchFailed(i));
    }
    var pid := PidValue(h.pidText(i));
    return actions, Ok(Row(name, ip, ovlDisk, seedIso, pid));
  }

  /** The loop over 1..count, carrying curr_ip and the rows, up to the
      first failure. */
  method ProvisionAll(c: Config, h: Host) returns (actions: seq<Action>, result: Result<seq<Row>, Failure>)
    ensures Run(actions, result) == Fold(Steps(c, h, Iterations(c.args)))
  {
    var rows: seq<Row> := [];
    actions := [];
    var currIp := c.start;
    var i := 1;
    while i <= c.args.count
      invariant 1 <= i <= Iterations(c.args) + 1
      invariant currIp == c.start + i - 1
      invariant Fold(Steps(c, h, i - 1)) == Run(actions, Ok(rows))
    {
      var stepActions, step := ProvisionOne(c, h, i, currIp);
      StepsExtend(c, h, i - 1);
      FoldAppend(Steps(c, h, i - 1), Step(stepActions, step));
      actions := actions + stepActions;
      if step.Err? {
        StepsPrefix(c, h, i, Iterations(c.args));
        FoldStopsAtFailure(Steps(c, h, Iterations(c.args)), i);
        return actions, Err(step.error);
      }
      rows := rows + [step.value];
      currIp := currIp + 1;
      i := i + 1;
    }
    assert i - 1 == Iterations(c.args);
    return actions, Ok(rows);
  }

  /** main(): the directories, the checks, the loop, then instances.csv
      unless this is a dry run. */
  method Provision(a: Args, h: Host) returns (actions: seq<Action>, result: Result<seq<Row>, Failure>)
    ensures Run(actions, result) == Main(a, h)
  {
    var w := a.workdir;
    var listing := if "ifconfig" in h.onPath then [ListInterfaces] else [];
    actions := [MakeDir(OverlaysDir(w)), MakeDir(SeedsDir(w))] + listing;
    var setup := Setup(a, h);
    if setup.Err? {
      return actions, Err(setup.error);
    }
    var loopActions, rows := ProvisionAll(setup.value, h);
    actions := actions + loopActions;
    if rows.Ok? && !a.dryRun {
      actions := actions + [WriteCsv(CsvPath(w), rows.value)];
    }
    return actions, rows;
  }
}
