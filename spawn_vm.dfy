// spawn_vm.py: one bridged VM from an overlay of the gold image, with a
// generated MAC address, launched through sudo, and the host-side network
// arithmetic used to find its address.
//
// Subprocesses are oracles: their exit status and output are parameters.

module SpawnVm {
  import opened Wrappers
  import opened Text
  import opened Paths
  import IPv4

  // ---------------------------------------------------------------------
  // run()

  /** The argument vector run() hands to subprocess.run: "sudo" in front
      exactly when sudo was asked for and the effective uid is not 0. */
  function RunArgv(cmd: seq<string>, sudo: bool, euid: int): (r: seq<string>)
    ensures |r| == |cmd| || |r| == |cmd| + 1
    ensures r[|r| - |cmd|..] == cmd
    ensures |r| == |cmd| + 1 <==> sudo && euid != 0
    ensures |r| == |cmd| + 1 ==> r[0] == "sudo"
  {
    if sudo && euid != 0 then ["sudo"] + cmd else cmd
  }

  datatype RunError = CommandFailed(argv: seq<string>, stderr: string)

  /** What run() returns or raises, given what the process did: with check
      set a non-zero exit status raises with the full argument vector;
      otherwise the captured standard output, stripped ("" when not
      captured). */
  function Run(cmd: seq<string>, check: bool, capture: bool, sudo: bool, euid: int,
               returncode: int, stdout: string, stderr: string): (r: Result<string, RunError>)
    ensures r.Err? <==> check && returncode != 0
    ensures r.Err? ==> r.error.argv == RunArgv(cmd, sudo, euid)
    ensures r.Ok? ==> Stripped(r.value)
    ensures r.Ok? && capture ==> r.value == Strip(stdout)
    ensures r.Ok? && !capture ==> r.value == ""
  {
    var argv := RunArgv(cmd, sudo, euid);
    if check && returncode != 0 then Err(CommandFailed(argv, if capture then stderr else ""))
    else
      var out := if capture then stdout else "";
      StripIsStripped(out);
      Ok(Strip(out))
  }

  // ---------------------------------------------------------------------
  // ensure_paths()

  datatype VmPaths = VmPaths(base: string, overlays: string, logs: string,
                             overlay: string, pidFile: string, logFile: string)

  /** The directories ensure_paths creates and the three per-VM files it names. */
  function EnsurePaths(baseDir: string, name: string): (p: VmPaths)
    ensures p.base == baseDir + "/base" && p.overlays == baseDir + "/overlays" && p.logs == baseDir + "/logs"
  {
    var overlays := Child(baseDir, "overlays");
    VmPaths(Child(baseDir, "base"), overlays, Child(baseDir, "logs"),
      Child(overlays, name + ".qcow2"), Child(overlays, name + ".pid"),
      Child(Child(baseDir, "logs"), name + ".log"))
  }

  /** For a relative name the files sit in the overlays and logs directories. */
  lemma EnsurePathsRelative(baseDir: string, name: string)
    requires name == [] || name[0] != '/'
    ensures var p := EnsurePaths(baseDir, name);
      && p.overlay == baseDir + "/overlays/" + name + ".qcow2"
      && p.pidFile == baseDir + "/overlays/" + name + ".pid"
      && p.logFile == baseDir + "/logs/" + name + ".log"
  {
    InDir(baseDir, "overlays", "/overlays/", name, ".qcow2");
    InDir(baseDir, "overlays", "/overlays/", name, ".pid");
    InDir(baseDir, "logs", "/logs/", name, ".log");
  }

  /** Child(Child(base, sub), name + ext) for a relative name. */
  lemma InDir(base: string, sub: string, dir: string, name: string, ext: string)
    requires |sub| > 0 && sub[0] != '/' && |ext| > 0 && ext[0] != '/' && (name == [] || name[0] != '/')
    requires dir == "/" + sub + "/"
    ensures Child(Child(base, sub), name + ext) == base + dir + name + ext
  {
    assert (name + ext)[0] != '/';
    assert base + "/" + sub + "/" + (name + ext) == base + dir + name + ext;
  }

  /** The three files of one VM are three different paths, whatever the name. */
  lemma VmFilesDistinct(baseDir: string, name: string)
    ensures var p := EnsurePaths(baseDir, name);
      p.overlay != p.pidFile && p.overlay != p.logFile && p.pidFile != p.logFile
  {
    var p := EnsurePaths(baseDir, name);
    assert p.overlay[|p.overlay| - 1] == '2';
    assert p.pidFile[|p.pidFile| - 1] == 'd';
    assert p.logFile[|p.logFile| - 1] == 'g';
  }

  /** Two VMs with different relative names under one base directory never
      share an overlay, a pid file or a log file. */
  lemma VmPathsInjective(baseDir: string, n1: string, n2: string)
    requires n1 != n2
    requires (n1 == [] || n1[0] != '/') && (n2 == [] || n2[0] != '/')
    ensures var p, q := EnsurePaths(baseDir, n1), EnsurePaths(baseDir, n2);
      p.overlay != q.overlay && p.pidFile != q.pidFile && p.logFile != q.logFile
  {
    EnsurePathsRelative(baseDir, n1);
    EnsurePathsRelative(baseDir, n2);
    var p, q := EnsurePaths(baseDir, n1), EnsurePaths(baseDir, n2);
    if p.overlay == q.overlay {
      CancelSuffix(baseDir + "/overlays/" + n1, baseDir + "/overlays/" + n2, ".qcow2");
      CancelPrefix(baseDir + "/overlays/", n1, n2);
    }
    if p.pidFile == q.pidFile {
      CancelSuffix(baseDir + "/overlays/" + n1, baseDir + "/overlays/" + n2, ".pid");
      CancelPrefix(baseDir + "/overlays/", n1, n2);
    }
    if p.logFile == q.logFile {
      CancelSuffix(baseDir + "/logs/" + n1, baseDir + "/logs/" + n2, ".log");
      CancelPrefix(baseDir + "/logs/", n1, n2);
    }
  }

  /** An absolute name escapes the base directory: pathlib's `/` lets it
      replace the overlays directory, so two different names can share an
      overlay. */
  lemma AbsoluteNameSharesOverlay()
    ensures EnsurePaths("/w", "/w/overlays/a").overlay == EnsurePaths("/w", "a").overlay
  {
    assert ("/w/overlays/a" + ".qcow2")[0] == '/';
    assert ("a" + ".qcow2")[0] != '/';
  }

  // ---------------------------------------------------------------------
  // make_overlay() and launch_vm()

  datatype VmError =
    | BaseMissing(path: string)
    | UefiCodeMissing
    | VarsMissing(path: string)
    | Failed(e: RunError)
    | NoPidFile

  datatype Action = MakeDir(path: string) | Exec(argv: seq<string>)

  datatype Trace<T> = Trace(actions: seq<Action>, result: Result<T, VmError>)

  /** The qemu-img command that backs a new overlay with the gold image. */
  function CreateArgv(gold: string, overlay: string): (r: seq<string>)
    ensures |r| == 9 && r[0] == "qemu-img" && r[1] == "create"
    ensures r[6..] == ["-b", gold, overlay]
  {
    ["qemu-img", "create", "-f", "qcow2", "-F", "qcow2", "-b", gold, overlay]
  }

  /** make_overlay: a missing gold image raises before anything else; an
      existing overlay is reused; otherwise one qemu-img create runs (with
      check, without sudo) and its failure raises. */
  function MakeOverlay(gold: string, overlay: string, existing: set<string>, createOk: bool): (r: Trace<()>)
    ensures gold !in existing ==> r == Trace([], Err(BaseMissing(gold)))
    ensures gold in existing && overlay in existing ==> r == Trace([], Ok(()))
    ensures gold in existing && overlay !in existing ==>
      r.actions == [Exec(CreateArgv(gold, overlay))] && (r.result.Ok? <==> createOk)
  {
    if gold !in existing then Trace([], Err(BaseMissing(gold)))
    else if overlay in existing then Trace([], Ok(()))
    else
      var argv := CreateArgv(gold, overlay);
      match Run(argv, true, true, false, 0, if createOk then 0 else 1, "", "")
      case Err(e) => Trace([Exec(argv)], Err(Failed(e)))
      case Ok(_) => Trace([Exec(argv)], Ok(()))
  }

  const UefiCode: string := "/opt/homebrew/share/qemu/edk2-aarch64-code.fd"

  /** The qemu-system-aarch64 command of launch_vm (before run() adds sudo). */
  function LaunchArgv(cpus: int, ramMb: int, varsFd: string, overlay: string, ifname: string,
                      mac: string, pidFile: string, logFile: string): (r: seq<string>)
    ensures |r| == 25
    ensures r[..11] == ["qemu-system-aarch64", "-accel", "hvf", "-machine", "virt,highmem=on", "-cpu", "host",
                        "-smp", IntToString(cpus), "-m", IntToString(ramMb)]
    ensures r[11..15] == ["-bios", UefiCode, "-drive", "if=pflash,format=raw,unit=1,file=" + varsFd]
    ensures r[15..17] == ["-drive", "if=virtio,file=" + overlay + ",format=qcow2,cache=none,discard=unmap"]
    ensures r[17..19] == ["-nic", "vmnet-bridged,ifname=" + ifname + ",model=virtio-net-pci,mac=" + mac]
    ensures r[19..] == ["-nographic", "-daemonize", "-pidfile", pidFile, "-D", logFile]
  {
    ["qemu-system-aarch64",
     "-accel", "hvf",
     "-machine", "virt,highmem=on",
     "-cpu", "host",
     "-smp", IntToString(cpus),
     "-m", IntToString(ramMb),
     "-bios", UefiCode,
     "-drive", "if=pflash,format=raw,unit=1,file=" + varsFd,
     "-drive", "if=virtio,file=" + overlay + ",format=qcow2,cache=none,discard=unmap",
     "-nic", "vmnet-bridged,ifname=" + ifname + ",model=virtio-net-pci,mac=" + mac,
     "-nographic",
     "-daemonize", "-pidfile", pidFile,
     "-D", logFile]
  }

  /** What launch_vm sees of the host. */
  datatype VmHost = VmHost(
    euid: int,                  // os.geteuid()
    existing: set<string>,      // Path.exists() before the call
    createOk: bool,             // qemu-img create exits with 0
    launchOk: bool,             // sudo qemu-system-aarch64 exits with 0
    pidAppears: bool)           // the pid file exists within the 5-second wait

  datatype Launched = Launched(overlay: string, pidFile: string, logFile: string)

  /** launch_vm: create the directories, check the UEFI code ROM and the vars
      store, create or reuse the overlay, launch QEMU through run(sudo=True)
      and wait for its pid file. */
  function LaunchVm(baseDir: string, name: string, ifname: string, cpus: int, ramMb: int,
                    mac: string, h: VmHost): Trace<Launched>
  {
    var p := EnsurePaths(baseDir, name);
    var dirs := [MakeDir(p.base), MakeDir(p.overlays), MakeDir(p.logs)];
    var gold, varsFd := Child(p.base, "gold.qcow2"), Child(p.base, "vars.fd");
    if UefiCode !in h.existing then Trace(dirs, Err(UefiCodeMissing))
    else if varsFd !in h.existing then Trace(dirs, Err(VarsMissing(varsFd)))
    else
      var ov := MakeOverlay(gold, p.overlay, h.existing, h.createOk);
      if ov.result.Err? then Trace(dirs + ov.actions, Err(ov.result.error))
      else
        var cmd := LaunchArgv(cpus, ramMb, varsFd, p.overlay, ifname, mac, p.pidFile, p.logFile);
        var launched := dirs + ov.actions + [Exec(RunArgv(cmd, true, h.euid))];
        match Run(cmd, true, true, true, h.euid, if h.launchOk then 0 else 1, "", "")
        case Err(e) => Trace(launched, Err(Failed(e)))
        case Ok(_) =>
          if !h.pidAppears then Trace(launched, Err(NoPidFile))
          else Trace(launched, Ok(Launched(p.overlay, p.pidFile, p.logFile)))
  }

  /** The gold image and the vars store launch_vm checks. */
  function Gold(baseDir: string): string { Child(Child(baseDir, "base"), "gold.qcow2") }

  function VarsFd(baseDir: string): string { Child(Child(baseDir, "base"), "vars.fd") }

  /** launch_vm succeeds exactly when the ROM, the vars store and the gold
      image exist, the overlay exists or its creation works, QEMU starts and
      its pid file appears; it then returns the paths ensure_paths names. */
  lemma LaunchVmSucceeds(baseDir: string, name: string, ifname: string, cpus: int, ramMb: int,
                         mac: string, h: VmHost)
    ensures var r := LaunchVm(baseDir, name, ifname, cpus, ramMb, mac, h);
      var p := EnsurePaths(baseDir, name);
      && (r.result.Ok? <==>
            && UefiCode in h.existing && VarsFd(baseDir) in h.existing && Gold(baseDir) in h.existing
            && (p.overlay in h.existing || h.createOk) && h.launchOk && h.pidAppears)
      && (r.result.Ok? ==> r.result.value == Launched(p.overlay, p.pidFile, p.logFile))
  {
  }

  /** The checks run in the source's order: the UEFI ROM first, then the vars
      store, then the gold image (even when the overlay already exists); a
      failed check issues no command beyond creating the directories. */
  lemma LaunchVmCheckOrder(baseDir: string, name: string, ifname: string, cpus: int, ramMb: int,
                           mac: string, h: VmHost)
    ensures var r := LaunchVm(baseDir, name, ifname, cpus, ramMb, mac, h);
      var p := EnsurePaths(baseDir, name);
      var dirs := [MakeDir(p.base), MakeDir(p.overlays), MakeDir(p.logs)];
      && (UefiCode !in h.existing ==> r == Trace(dirs, Err(UefiCodeMissing)))
      && (UefiCode in h.existing && VarsFd(baseDir) !in h.existing ==>
            r == Trace(dirs, Err(VarsMissing(VarsFd(baseDir)))))
      && (UefiCode in h.existing && VarsFd(baseDir) in h.existing && Gold(baseDir) !in h.existing ==>
            r == Trace(dirs, Err(BaseMissing(Gold(baseDir)))))
  {
  }

  /** The overlay is created only when it is absent (and the checks before it
      passed), with exactly one qemu-img create backing it by the gold image;
      QEMU runs once, through sudo unless already root, with the generated
      MAC on its NIC and as a daemon writing the pid file. */
  lemma LaunchVmCommands(baseDir: string, name: string, ifname: string, cpus: int, ramMb: int,
                         mac: string, h: VmHost)
    requires UefiCode in h.existing && VarsFd(baseDir) in h.existing && Gold(baseDir) in h.existing
    ensures var r := LaunchVm(baseDir, name, ifname, cpus, ramMb, mac, h);
      var p := EnsurePaths(baseDir, name);
      var cmd := LaunchArgv(cpus, ramMb, VarsFd(baseDir), p.overlay, ifname, mac, p.pidFile, p.logFile);
      var creates := if p.overlay in h.existing then [] else [Exec(CreateArgv(Gold(baseDir), p.overlay))];
      r.actions == [MakeDir(p.base), MakeDir(p.overlays), MakeDir(p.logs)] + creates
        + (if p.overlay in h.existing || h.createOk then [Exec(RunArgv(cmd, true, h.euid))] else [])
  {
  }

  // ---------------------------------------------------------------------
  // gen_mac()

  predicate IsOctet(b: int) { 0 <= b < 256 }

  /** The six octets gen_mac picks: the QEMU prefix 52:54:00, a fourth octet
      drawn from 0..0x7f, a fifth from 0..0xff, and a sixth drawn from
      0..0xff or, when given, last_octet & 0xFF (Python's & on a negative int
      agrees with the non-negative remainder). The draws are parameters. */
  function MacOctets(r3: int, r4: int, r5: int, lastOctet: Option<int>): (o: seq<int>)
    requires 0 <= r3 <= 0x7f && IsOctet(r4) && IsOctet(r5)
    ensures IsOctets(o)
    ensures o[..3] == [0x52, 0x54, 0x00] && o[3] <= 0x7f && o[3] == r3 && o[4] == r4
    ensures o[5] == if lastOctet.Some? then lastOctet.value % 256 else r5
  {
    [0x52, 0x54, 0x00, r3, r4, if lastOctet.None? then r5 else lastOctet.value % 256]
  }

  predicate IsOctets(o: seq<int>)
  {
    |o| == 6 && forall k :: 0 <= k < 6 ==> IsOctet(o[k])
  }

  /** f"{b:02x}" for each octet. */
  function HexParts(o: seq<int>): (parts: seq<string>)
    requires IsOctets(o)
    ensures |parts| == 6 && forall k :: 0 <= k < 6 ==> parts[k] == Hex2(o[k])
  {
    [Hex2(o[0]), Hex2(o[1]), Hex2(o[2]), Hex2(o[3]), Hex2(o[4]), Hex2(o[5])]
  }

  /** ":".join(f"{b:02x}" for b in octets) */
  function MacText(o: seq<int>): string
    requires IsOctets(o)
  {
    Join(HexParts(o), ':')
  }

  /** gen_mac() */
  function GenMac(r3: int, r4: int, r5: int, lastOctet: Option<int>): string
    requires 0 <= r3 <= 0x7f && IsOctet(r4) && IsOctet(r5)
  {
    MacText(MacOctets(r3, r4, r5, lastOctet))
  }

  predicate IsHexPair(p: string)
  {
    |p| == 2 && IsLowerHex(p[0]) && IsLowerHex(p[1])
  }

  /** The octets of a colon-separated text of six two-digit lower-case
      hexadecimal fields; None for any other text. */
  function ParseMac(s: string): (r: Option<seq<int>>)
    ensures r.Some? ==> IsOctets(r.value)
  {
    var parts := Split(s, ':');
    if |parts| == 6 && forall k :: 0 <= k < 6 ==> IsHexPair(parts[k]) then
      Some([ParseHex2(parts[0]), ParseHex2(parts[1]), ParseHex2(parts[2]),
            ParseHex2(parts[3]), ParseHex2(parts[4]), ParseHex2(parts[5])])
    else None
  }

  lemma ColonIsNotHex()
    ensures !IsLowerHex(':')
  {
  }

  /** Every MAC text parses back to its octets. */
  lemma ParseMacText(o: seq<int>)
    requires IsOctets(o)
    ensures ParseMac(MacText(o)) == Some(o)
  {
    var parts := HexParts(o);
    ColonIsNotHex();
    forall k | 0 <= k < 6
      ensures ':' !in parts[k] && IsHexPair(parts[k]) && ParseHex2(parts[k]) == o[k]
    {
      assert parts[k] == [parts[k][0], parts[k][1]];
      ParseHex2OfHex2(o[k]);
    }
    SplitJoin(parts, ':');
    assert Split(MacText(o), ':') == parts;
    var q := [ParseHex2(parts[0]), ParseHex2(parts[1]), ParseHex2(parts[2]),
              ParseHex2(parts[3]), ParseHex2(parts[4]), ParseHex2(parts[5])];
    assert q == o;
  }

  /** ParseMac accepts only the texts MacText produces. */
  lemma MacTextOfParse(s: string)
    requires ParseMac(s).Some?
    ensures MacText(ParseMac(s).value) == s
  {
    var parts := Split(s, ':');
    var o := ParseMac(s).value;
    forall k | 0 <= k < 6
      ensures HexParts(o)[k] == parts[k]
    {
      Hex2OfParseHex2(parts[k]);
    }
    assert HexParts(o) == parts;
    JoinSplit(s, ':');
  }

  /** Distinct octets give distinct MAC texts. */
  lemma MacTextInjective(o: seq<int>, q: seq<int>)
    requires IsOctets(o) && IsOctets(q)
    requires MacText(o) == MacText(q)
    ensures o == q
  {
    ParseMacText(o);
    ParseMacText(q);
  }

  /** A join of six two-character fields, written out. */
  lemma JoinSix(parts: seq<string>, sep: char)
    requires |parts| == 6
    ensures Join(parts, sep) == parts[0] + [sep] + parts[1] + [sep] + parts[2] + [sep]
                              + parts[3] + [sep] + parts[4] + [sep] + parts[5]
  {
    assert Join(parts[5..], sep) == parts[5];
    assert Join(parts[4..], sep) == parts[4] + [sep] + Join(parts[5..], sep) by { assert parts[4..][1..] == parts[5..]; }
    assert Join(parts[3..], sep) == parts[3] + [sep] + Join(parts[4..], sep) by { assert parts[3..][1..] == parts[4..]; }
    assert Join(parts[2..], sep) == parts[2] + [sep] + Join(parts[3..], sep) by { assert parts[2..][1..] == parts[3..]; }
    assert Join(parts[1..], sep) == parts[1] + [sep] + Join(parts[2..], sep) by { assert parts[1..][1..] == parts[2..]; }
  }

  /** gen_mac returns 17 characters starting with "52:54:00:". */
  lemma GenMacText(r3: int, r4: int, r5: int, lastOctet: Option<int>)
    requires 0 <= r3 <= 0x7f && IsOctet(r4) && IsOctet(r5)
    ensures var s := GenMac(r3, r4, r5, lastOctet);
      |s| == 17 && s[..9] == "52:54:00:"
  {
    var parts := HexParts(MacOctets(r3, r4, r5, lastOctet));
    JoinSix(parts, ':');
    assert parts[0] == "52" && parts[1] == "54" && parts[2] == "00";
  }

  /** gen_mac's text reads back as the prefix 52:54:00, a fourth octet of at
      most 0x7f, the drawn fifth octet and, when given, last_octet & 0xFF as
      the sixth. */
  lemma GenMacOctets(r3: int, r4: int, r5: int, lastOctet: Option<int>)
    requires 0 <= r3 <= 0x7f && IsOctet(r4) && IsOctet(r5)
    ensures var m := ParseMac(GenMac(r3, r4, r5, lastOctet));
      && m.Some?
      && m.value[..3] == [0x52, 0x54, 0x00]
      && m.value[3] <= 0x7f
      && m.value[4] == r4
      && m.value[5] == (if lastOctet.Some? then lastOctet.value % 256 else r5)
  {
    ParseMacText(MacOctets(r3, r4, r5, lastOctet));
  }

  /** main() lower-cases the MAC before matching it: gen_mac's text is
      already lower case. */
  lemma GenMacIsLower(r3: int, r4: int, r5: int, lastOctet: Option<int>)
    requires 0 <= r3 <= 0x7f && IsOctet(r4) && IsOctet(r5)
    ensures Lower(GenMac(r3, r4, r5, lastOctet)) == GenMac(r3, r4, r5, lastOctet)
  {
    var o := MacOctets(r3, r4, r5, lastOctet);
    var parts := HexParts(o);
    var s := Join(parts, ':');
    forall i | 0 <= i < |s|
      ensures LowerChar(s[i]) == s[i]
    {
      if 'A' <= s[i] <= 'Z' {
        forall k | 0 <= k < 6
          ensures s[i] !in parts[k]
        {
          assert parts[k] == [parts[k][0], parts[k][1]];
        }
        JoinAvoids(parts, ':', s[i]);
        assert false;
      }
    }
  }

  // ---------------------------------------------------------------------
  // cidr_from_ip_mask()

  /** IPv4Network(f"{ip}/{mask}", strict=False), falling back to the /24
      named by the first three dot-separated fields of ip; None where that
      fallback raises as well. */
  function CidrFromIpMask(ip: string, mask: string): (r: Option<IPv4.Network>)
    ensures r.Some? ==> r.value.Valid() && r.value.addr + IPv4.BlockSize(r.value.prefix) <= IPv4.AddrSpace
  {
    match IPv4.ParseNetwork(ip + "/" + mask)
    case Some(n) => Some(n)
    case None =>
      var parts := Split(ip, '.');
      var first := if |parts| <= 3 then parts else parts[..3];
      IPv4.ParseNetwork(Join(first + ["0"], '.') + "/24")
  }

  /** A valid address and mask give the network of that prefix holding the
      address. */
  lemma CidrOfValidMask(ip: string, mask: string)
    requires IPv4.Parse(ip).Some? && '/' !in mask && IPv4.PrefixFromText(mask).Some?
    ensures CidrFromIpMask(ip, mask)
         == Some(IPv4.NetworkContaining(IPv4.Parse(ip).value, IPv4.PrefixFromText(mask).value))
  {
    IPv4.ParseNetworkOf(ip, mask);
  }

  /** A valid address with a mask that names no prefix falls back to the
      /24 holding the address. */
  lemma CidrFallsBackToSlash24(ip: string, mask: string)
    requires IPv4.Parse(ip).Some? && '/' !in mask && IPv4.PrefixFromText(mask).None?
    ensures CidrFromIpMask(ip, mask) == Some(IPv4.NetworkContaining(IPv4.Parse(ip).value, 24))
    ensures CidrFromIpMask(ip, mask).value.Contains(IPv4.Parse(ip).value)
  {
    var a := IPv4.Parse(ip).value;
    IPv4.ParseNetworkRejects(ip, mask);
    var o := IPv4.Octets(a);
    var parts := [Decimal(o[0]), Decimal(o[1]), Decimal(o[2]), Decimal(o[3])];
    IPv4.FormatParse(ip);
    assert ip == Join(parts, '.');
    forall k | 0 <= k < 4
      ensures '.' !in parts[k]
    {
      assert AllDigits(parts[k]);
    }
    SplitJoin(parts, '.');
    assert Split(ip, '.') == parts;
    var a24 := Slash24(o);
    assert parts[..3] + ["0"] == [Decimal(o[0]), Decimal(o[1]), Decimal(o[2]), "0"];
    var fallback := Join(parts[..3] + ["0"], '.') + "/24";
    assert CidrFromIpMask(ip, mask) == IPv4.ParseNetwork(fallback);
    assert fallback == IPv4.Format(a24) + "/" + "24";
    IPv4.ParseFormat(a24);
    assert IPv4.PrefixFromText("24") == Some(24) by {
      IPv4.PrefixTextOfInt(24);
      assert IntToString(24) == "24";
    }
    IPv4.ParseNetworkOf(IPv4.Format(a24), "24");
    assert IPv4.ParseNetwork(fallback) == Some(IPv4.NetworkContaining(a24, 24));
    SameSlash24(a, o);
  }

  /** The address with the octets of o but a last octet of 0. */
  function Slash24(o: seq<int>): (a: IPv4.Addr)
    requires |o| == 4 && forall k :: 0 <= k < 4 ==> 0 <= o[k] < 256
    ensures IPv4.Octets(a) == [o[0], o[1], o[2], 0]
    ensures IPv4.Format(a) == Join([Decimal(o[0]), Decimal(o[1]), Decimal(o[2]), "0"], '.')
  {
    IPv4.FromOctetsRoundTrip([o[0], o[1], o[2], 0]);
    IPv4.FromOctets([o[0], o[1], o[2], 0])
  }

  lemma SameSlash24(a: IPv4.Addr, o: seq<int>)
    requires o == IPv4.Octets(a)
    ensures IPv4.NetworkContaining(Slash24(o), 24) == IPv4.NetworkContaining(a, 24)
  {
    IPv4.Pow2Values();
    IPv4.OctetsRoundTrip(a);
    var x := (o[0] * 256 + o[1]) * 256 + o[2];
    IPv4.DivMod256(x, o[3]);
    IPv4.DivMod256(x, 0);
  }

  // ---------------------------------------------------------------------
  // light_ping_sweep()

  function Max(a: int, b: int): int { if a >= b then a else b }

  function Min(a: int, b: int): int { if a <= b then a else b }

  /** max(1, min(limit // 2, len(hosts) // 2)); // floors, as / does for a
      positive divisor. */
  function Window(n: nat, limit: int): (w: int)
    ensures 1 <= w && (w == 1 || (2 * w <= limit && 2 * w <= n))
  {
    Max(1, Min(limit / 2, n / 2))
  }

  /** hosts.index(host), or len(hosts) // 2 when the host is not listed. */
  function SweepIndex(hosts: seq<IPv4.Addr>, host: IPv4.Addr): (i: nat)
    ensures i <= |hosts|
    ensures host in hosts ==> i < |hosts| && hosts[i] == host && host !in hosts[..i]
    ensures host !in hosts ==> i == |hosts| / 2
  {
    if host !in hosts then |hosts| / 2
    else if hosts[0] == host then 0
    else
      var i := SweepIndex(hosts[1..], host);
      assert hosts[..i + 1] == [hosts[0]] + hosts[1..][..i];
      i + 1
  }

  /** hosts[max(0, idx - window):min(len(hosts), idx + window)] */
  function Candidates(hosts: seq<IPv4.Addr>, host: IPv4.Addr, limit: int): seq<IPv4.Addr>
  {
    var idx := SweepIndex(hosts, host);
    var w := Window(|hosts|, limit);
    hosts[Max(0, idx - w)..Min(|hosts|, idx + w)]
  }

  /** The candidates are a contiguous run of the host list, at most 2 * window
      long, around the host's own index: they include the host itself when it
      is listed. */
  lemma CandidatesWindow(hosts: seq<IPv4.Addr>, host: IPv4.Addr, limit: int)
    ensures var idx, w := SweepIndex(hosts, host), Window(|hosts|, limit);
      var lo, hi := Max(0, idx - w), Min(|hosts|, idx + w);
      && Candidates(hosts, host, limit) == hosts[lo..hi]
      && 0 <= lo <= hi <= |hosts| && hi - lo <= 2 * w
      && idx - w <= lo && hi <= idx + w
    ensures host in hosts ==> host in Candidates(hosts, host, limit)
  {
    CandidatesWindowAt(hosts, host, limit, SweepIndex(hosts, host), Window(|hosts|, limit));
  }

  /** CandidatesWindow with the index and the window named. */
  lemma CandidatesWindowAt(hosts: seq<IPv4.Addr>, host: IPv4.Addr, limit: int, idx: nat, w: int)
    requires idx == SweepIndex(hosts, host) && w == Window(|hosts|, limit)
    ensures var lo, hi := Max(0, idx - w), Min(|hosts|, idx + w);
      && Candidates(hosts, host, limit) == hosts[lo..hi]
      && 0 <= lo <= hi <= |hosts| && hi - lo <= 2 * w
      && idx - w <= lo && hi <= idx + w
    ensures host in hosts ==> host in Candidates(hosts, host, limit)
  {
    CandidatesIsSlice(hosts, host, limit, idx, w);
    SliceAround(hosts, idx, w);
    SliceAroundHolds(hosts, idx, w, host);
  }

  lemma CandidatesIsSlice(hosts: seq<IPv4.Addr>, host: IPv4.Addr, limit: int, idx: nat, w: int)
    requires idx == SweepIndex(hosts, host) && w == Window(|hosts|, limit)
    ensures Candidates(hosts, host, limit) == hosts[Max(0, idx - w)..Min(|hosts|, idx + w)]
  {
  }

  /** The slice around the index of x holds x when x is listed. */
  lemma SliceAroundHolds<T>(s: seq<T>, idx: nat, w: int, x: T)
    requires idx <= |s| && w >= 1
    requires x in s ==> idx < |s| && s[idx] == x
    ensures x in s ==> x in s[Max(0, idx - w)..Min(|s|, idx + w)]
  {
    if x in s {
      SliceAround(s, idx, w);
    }
  }

  /** The slice of width up to 2 * w around idx. */
  lemma SliceAround<T>(s: seq<T>, idx: nat, w: int)
    requires idx <= |s| && w >= 1
    ensures var lo, hi := Max(0, idx - w), Min(|s|, idx + w);
      && 0 <= lo <= hi <= |s| && hi - lo <= 2 * w
      && idx - w <= lo && hi <= idx + w
      && (idx < |s| ==> s[idx] in s[lo..hi])
  {
    var lo, hi := Max(0, idx - w), Min(|s|, idx + w);
    if idx < |s| {
      assert s[lo..hi][idx - lo] == s[idx];
    }
  }

  function PingArgv(a: IPv4.Addr): seq<string>
  {
    ["ping", "-c", "1", "-W", "100", IPv4.Format(a)]
  }

  /** hosts.index(host), with len(hosts) // 2 in place of the ValueError. */
  method FindHost(hosts: seq<IPv4.Addr>, host: IPv4.Addr) returns (idx: nat)
    ensures idx == SweepIndex(hosts, host)
  {
    idx := 0;
    while idx < |hosts| && hosts[idx] != host
      invariant 0 <= idx <= |hosts|
      invariant host !in hosts[..idx]
    {
      idx := idx + 1;
    }
    if idx == |hosts| {
      assert hosts[..idx] == hosts;
      idx := |hosts| / 2;
    } else {
      FirstIndexUnique(hosts, host, idx);
    }
  }

  lemma FirstIndexUnique(hosts: seq<IPv4.Addr>, host: IPv4.Addr, i: nat)
    requires i < |hosts| && hosts[i] == host && host !in hosts[..i]
    ensures SweepIndex(hosts, host) == i
  {
    assert host in hosts;
  }

  /** The ping command started for each candidate, in order. */
  method PingAll(candidates: seq<IPv4.Addr>) returns (procs: seq<seq<string>>)
    ensures procs == seq(|candidates|, k requires 0 <= k < |candidates| => PingArgv(candidates[k]))
  {
    procs := [];
    for k := 0 to |candidates|
      invariant procs == seq(k, j requires 0 <= j < k => PingArgv(candidates[j]))
    {
      procs := procs + [PingArgv(candidates[k])];
    }
  }

  datatype SweepError = BadHostAddress(text: string)

  /** light_ping_sweep: the ping commands it starts. An absent or empty host
      address starts none; one that is not an address raises. The network is
      an IPv4Network, so it satisfies the IPv4Network invariant. */
  method LightPingSweep(hostIp: Option<string>, network: IPv4.Network, limit: int)
    returns (r: Result<seq<seq<string>>, SweepError>)
    requires network.Valid() && network.addr + IPv4.BlockSize(network.prefix) <= IPv4.AddrSpace
    ensures hostIp.None? || hostIp == Some("") ==> r == Ok([])
    ensures hostIp.Some? && hostIp.value != "" && IPv4.Parse(hostIp.value).None? ==> r == Err(BadHostAddress(hostIp.value))
    ensures hostIp.Some? && IPv4.Parse(hostIp.value).Some? ==>
      var c := Candidates(IPv4.Hosts(network), IPv4.Parse(hostIp.value).value, limit);
      r == Ok(seq(|c|, k requires 0 <= k < |c| => PingArgv(c[k])))
  {
    if hostIp.None? || hostIp.value == "" {
      return Ok([]);
    }
    var parsed := IPv4.Parse(hostIp.value);
    if parsed.None? {
      return Err(BadHostAddress(hostIp.value));
    }
    var hosts := IPv4.Hosts(network);
    var idx := FindHost(hosts, parsed.value);
    var window := Max(1, Min(limit / 2, |hosts| / 2));
    var candidates := hosts[Max(0, idx - window)..Min(|hosts|, idx + window)];
    assert candidates == Candidates(hosts, parsed.value, limit);
    var procs := PingAll(candidates);
    return Ok(procs);
  }
}
