// build_seed_iso (spawn_overlays.py): pack a seed-init directory into a
// cloud-init "cidata" ISO, trying hdiutil, then mkisofs, then xorrisofs.
//
// The external tools are opaque: what the host answers (does a step
// succeed, is a tool on PATH) is an input.

module IsoBuilder {
  import opened Wrappers
  import opened Paths

  datatype Tool = Hdiutil | Mkisofs | Xorrisofs

  /** The host's answers while the builder runs. */
  datatype Host = Host(
    cleanupOk: bool,        // removing a stale tmp_out succeeds (or there is none)
    hdiutilOk: bool,        // `hdiutil makehybrid` exits with status 0
    renameOk: bool,         // replacing out_iso by the produced image succeeds
    mkisofsOnPath: bool,    // shutil.which("mkisofs")
    mkisofsOk: bool,
    xorrisofsOnPath: bool,  // shutil.which("xorrisofs")
    xorrisofsOk: bool)

  datatype IsoError =
    | EmptyName             // out_iso.with_suffix("") raises ValueError
    | ToolFailed(tool: Tool) // run(...) re-raises CalledProcessError
    | NoBuilder             // the final RuntimeError

  /** One builder invocation: the tool, the output it is told to write and
      the directory it packs. */
  datatype Command = Command(tool: Tool, output: string, source: string)

  /** What a build did: the hdiutil command, when it was issued, the
      fallback command issued after it, if any, and the tool that produced
      the ISO. */
  datatype Attempt = Attempt(hdiutil: Option<Command>, fallback: Option<Command>, result: Result<Tool, IsoError>)

  /** The argument vector of a command, as the script spells it. */
  function Argv(c: Command): (r: seq<string>)
    ensures |r| >= 2 && r[|r| - 1] == c.source && c.output in r && "cidata" in r
  {
    match c.tool
    case Hdiutil => ["hdiutil", "makehybrid", "-iso", "-joliet", "-default-volume-name", "cidata", "-o", c.output, c.source]
    case Mkisofs => ["mkisofs", "-output", c.output, "-volid", "cidata", "-joliet", "-rock", c.source]
    case Xorrisofs => ["xorrisofs", "-o", c.output, "-V", "cidata", "-J", "-R", c.source]
  }

  /** The hdiutil attempt (the try block) runs to its `return`: the stale
      output is removed, hdiutil succeeds, and the image it produced
      (tmp_out.with_suffix(".iso")) either already is out_iso or is renamed
      onto it. */
  predicate HdiutilPlaces(produced: Option<string>, outIso: string, h: Host)
  {
    h.cleanupOk && h.hdiutilOk && (produced == Some(outIso) || (produced.Some? && h.renameOk))
  }

  /** The chain once tmp_out and the image hdiutil produces are known. */
  function Chain(seedInit: string, outIso: string, tmpOut: string, produced: Option<string>, h: Host): Attempt
  {
    var tried := if h.cleanupOk then Some(Command(Hdiutil, tmpOut, seedInit)) else None;
    if HdiutilPlaces(produced, outIso, h) then Attempt(tried, None, Ok(Hdiutil))
    else if h.mkisofsOnPath then
      Attempt(tried, Some(Command(Mkisofs, outIso, seedInit)), if h.mkisofsOk then Ok(Mkisofs) else Err(ToolFailed(Mkisofs)))
    else if h.xorrisofsOnPath then
      Attempt(tried, Some(Command(Xorrisofs, outIso, seedInit)), if h.xorrisofsOk then Ok(Xorrisofs) else Err(ToolFailed(Xorrisofs)))
    else Attempt(tried, None, Err(NoBuilder))
  }

  /** build_seed_iso as a value: the specification of RunBuildSeedIso. */
  function BuildSeedIso(seedInit: string, outIso: string, h: Host): Attempt
  {
    match WithSuffix(outIso, "")
    case None => Attempt(None, None, Err(EmptyName))
    case Some(tmpOut) => Chain(seedInit, outIso, tmpOut, WithSuffix(tmpOut, ".iso"), h)
  }

  /** build_seed_iso step by step, with its early returns. */
  method RunBuildSeedIso(seedInit: string, outIso: string, h: Host)
    returns (hdiutil: Option<Command>, fallback: Option<Command>, result: Result<Tool, IsoError>)
    ensures Attempt(hdiutil, fallback, result) == BuildSeedIso(seedInit, outIso, h)
  {
    hdiutil, fallback := None, None;
    var tmp := WithSuffix(outIso, "");
    if tmp.None? {
      return None, None, Err(EmptyName);
    }
    var tmpOut := tmp.value;
    // 1) hdiutil; any exception in the try block falls through
    if h.cleanupOk {
      hdiutil := Some(Command(Hdiutil, tmpOut, seedInit));
      if h.hdiutilOk {
        var produced := WithSuffix(tmpOut, ".iso");
        if produced == Some(outIso) {
          return hdiutil, None, Ok(Hdiutil);
        } else if produced.Some? && h.renameOk {
          return hdiutil, None, Ok(Hdiutil);
        }
      }
    }
    // 2) mkisofs, when on PATH; its failure propagates
    if h.mkisofsOnPath {
      fallback := Some(Command(Mkisofs, outIso, seedInit));
      if !h.mkisofsOk {
        return hdiutil, fallback, Err(ToolFailed(Mkisofs));
      }
      return hdiutil, fallback, Ok(Mkisofs);
    }
    // 3) xorrisofs, when on PATH
    if h.xorrisofsOnPath {
      fallback := Some(Command(Xorrisofs, outIso, seedInit));
      if !h.xorrisofsOk {
        return hdiutil, fallback, Err(ToolFailed(Xorrisofs));
      }
      return hdiutil, fallback, Ok(Xorrisofs);
    }
    return hdiutil, None, Err(NoBuilder);
  }

  // ---------------------------------------------------------------------
  // Properties of the chain

  /** Preference order: hdiutil is tried first, once the stale output is
      gone, writing tmp_out; a fallback runs only when that attempt did not
      place the image, and it is mkisofs when mkisofs is on PATH, xorrisofs
      only when it is not; a fallback writes out_iso itself; every command
      packs the seed directory. */
  lemma PreferenceOrder(seedInit: string, outIso: string, h: Host)
    requires Name(outIso) != ""
    ensures var a := BuildSeedIso(seedInit, outIso, h);
      var tmpOut := WithSuffix(outIso, "").value;
      && (a.hdiutil.Some? <==> h.cleanupOk)
      && (a.hdiutil.Some? ==> a.hdiutil.value == Command(Hdiutil, tmpOut, seedInit))
      && (a.fallback.Some? ==>
            && !HdiutilPlaces(WithSuffix(tmpOut, ".iso"), outIso, h)
            && a.fallback.value.tool != Hdiutil
            && (a.fallback.value.tool == Xorrisofs <==> !h.mkisofsOnPath)
            && a.fallback.value.output == outIso
            && a.fallback.value.source == seedInit)
  {
  }

  /** On success the producing tool is the last one run: hdiutil with no
      fallback after it, or the fallback command itself. */
  lemma SuccessIsLastCommand(seedInit: string, outIso: string, h: Host)
    ensures var a := BuildSeedIso(seedInit, outIso, h);
      a.result.Ok? ==>
        if a.result.value == Hdiutil then a.hdiutil.Some? && a.fallback.None?
        else a.fallback.Some? && a.fallback.value.tool == a.result.value
  {
  }

  /** The build raises exactly when no reachable builder succeeds: the path
      has no name, or hdiutil did not place the image and the first
      fallback on PATH failed or neither fallback is on PATH. */
  lemma RaisesExactly(seedInit: string, outIso: string, h: Host)
    ensures var tmpOut := WithSuffix(outIso, "");
      BuildSeedIso(seedInit, outIso, h).result.Err?
      <==> (tmpOut.None?
            || (!HdiutilPlaces(WithSuffix(tmpOut.value, ".iso"), outIso, h)
                && (h.mkisofsOnPath ==> !h.mkisofsOk)
                && (!h.mkisofsOnPath ==> !h.xorrisofsOnPath || !h.xorrisofsOk)))
  {
  }

  /** A failing mkisofs on PATH hides xorrisofs: after a failed hdiutil
      attempt the build raises whether or not xorrisofs would have worked. */
  lemma MkisofsShadowsXorrisofs(seedInit: string, outIso: string, h: Host)
    requires Name(outIso) != ""
    requires !HdiutilPlaces(WithSuffix(WithSuffix(outIso, "").value, ".iso"), outIso, h)
    requires h.mkisofsOnPath && !h.mkisofsOk
    ensures BuildSeedIso(seedInit, outIso, h).result == Err(ToolFailed(Mkisofs))
    ensures BuildSeedIso(seedInit, outIso, h.(xorrisofsOnPath := true, xorrisofsOk := true)).result
         == Err(ToolFailed(Mkisofs))
  {
  }

  /** More steps succeeding never breaks a build: with the same tools on
      PATH, a host whose every step succeeds whenever h's does builds
      whenever h builds. */
  lemma {:induction false} SuccessMonotone(seedInit: string, outIso: string, h: Host, g: Host)
    requires h.mkisofsOnPath == g.mkisofsOnPath && h.xorrisofsOnPath == g.xorrisofsOnPath
    requires h.cleanupOk ==> g.cleanupOk
    requires h.hdiutilOk ==> g.hdiutilOk
    requires h.renameOk ==> g.renameOk
    requires h.mkisofsOk ==> g.mkisofsOk
    requires h.xorrisofsOk ==> g.xorrisofsOk
    ensures BuildSeedIso(seedInit, outIso, h).result.Ok? ==> BuildSeedIso(seedInit, outIso, g).result.Ok?
  {
    match WithSuffix(outIso, "")
    case None =>
    case Some(tmpOut) =>
      if HdiutilPlaces(WithSuffix(tmpOut, ".iso"), outIso, h) {
        assert HdiutilPlaces(WithSuffix(tmpOut, ".iso"), outIso, g);
      }
  }

  /** For the seed ISOs of the provisioning loop, dir/seed-i.iso, hdiutil
      writes dir/seed-i.iso itself: tmp_out is dir/seed-i, no rename is
      needed, and the rename step's outcome never matters. */
  lemma {:induction false} SeedIsoNeedsNoRename(seedInit: string, dir: string, stem: string, h: Host)
    requires |stem| > 0 && '/' !in stem && '.' !in stem
    ensures var outIso := dir + "/" + stem + ".iso";
      && BuildSeedIso(seedInit, outIso, h) == Chain(seedInit, outIso, dir + "/" + stem, Some(outIso), h)
      && BuildSeedIso(seedInit, outIso, h) == BuildSeedIso(seedInit, outIso, h.(renameOk := !h.renameOk))
  {
    DropIsoSuffix(dir, stem);
    PutIsoSuffix(dir, stem);
  }
}
