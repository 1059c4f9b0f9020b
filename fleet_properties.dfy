// Properties of the provisioning run of spawn_overlays.py: what each
// instance records, the order of the rows, the artifact paths, which
// overlays are created, the dry run, the seed files and the QEMU command
// line.

module FleetProperties {
  import opened Wrappers
  import opened Text
  import opened Paths
  import IPv4
  import Templates
  import opened Fleet
  import opened FleetCreates

  // ---------------------------------------------------------------------
  // Names and paths

  /** The name and every per-index path of instance i differ from those of
      any other instance j. */
  lemma IndexedPathsInjective(w: string, p: string, i: nat, j: nat)
    requires i != j
    ensures InstanceName(p, i) != InstanceName(p, j)
    ensures OverlayPath(w, i) != OverlayPath(w, j)
    ensures SeedInitPath(w, i) != SeedInitPath(w, j)
    ensures SeedIsoPath(w, i) != SeedIsoPath(w, j)
    ensures PidPath(w, InstanceName(p, i)) != PidPath(w, InstanceName(p, j))
  {
    var di, dj := Decimal(i), Decimal(j);
    if InstanceName(p, i) == InstanceName(p, j) {
      CancelPrefix(p + "-", di, dj);
      DecimalInjective(i, j);
    }
    if OverlayPath(w, i) == OverlayPath(w, j) {
      CancelSuffix(OverlaysDir(w) + "/root-" + di, OverlaysDir(w) + "/root-" + dj, ".qcow2");
      CancelPrefix(OverlaysDir(w) + "/root-", di, dj);
      DecimalInjective(i, j);
    }
    if SeedInitPath(w, i) == SeedInitPath(w, j) {
      CancelPrefix(SeedsDir(w) + "/seed-init-", di, dj);
      DecimalInjective(i, j);
    }
    if SeedIsoPath(w, i) == SeedIsoPath(w, j) {
      CancelSuffix(SeedStemPath(w, i), SeedStemPath(w, j), ".iso");
      CancelPrefix(SeedsDir(w) + "/seed-", di, dj);
      DecimalInjective(i, j);
    }
    var ri, rj := InstanceName(p, i) + ".pid", InstanceName(p, j) + ".pid";
    assert ri[0] == rj[0];
    if PidPath(w, InstanceName(p, i)) == PidPath(w, InstanceName(p, j)) {
      if ri[0] != '/' {
        CancelPrefix(w + "/", ri, rj);
      }
      CancelSuffix(InstanceName(p, i), InstanceName(p, j), ".pid");
    }
  }

  /** Paths of different kinds never meet, whatever the two indices: an
      overlay, a seed-init directory, a seed ISO, a pid file and the CSV
      file are told apart by their last character, or by the directory
      below the working directory. */
  lemma ArtifactKindsDistinct(w: string, p: string, i: nat, j: nat)
    ensures OverlayPath(w, i) != SeedInitPath(w, j)
    ensures OverlayPath(w, i) != SeedIsoPath(w, j)
    ensures OverlayPath(w, i) != PidPath(w, InstanceName(p, j))
    ensures SeedInitPath(w, i) != SeedIsoPath(w, j)
    ensures SeedInitPath(w, i) != PidPath(w, InstanceName(p, j))
    ensures SeedIsoPath(w, i) != PidPath(w, InstanceName(p, j))
    ensures CsvPath(w) !in {OverlayPath(w, i), SeedInitPath(w, i), SeedIsoPath(w, i), PidPath(w, InstanceName(p, i))}
  {
    var o, si, so := OverlayPath(w, i), SeedInitPath(w, j), SeedIsoPath(w, j);
    var pid := PidPath(w, InstanceName(p, j));
    assert o[|w| + 1] == 'o' && si[|w| + 1] == 's';
    assert IsDigit(si[|si| - 1]) by {
      assert si[|si| - 1] == Decimal(j)[|Decimal(j)| - 1];
    }
    assert o[|o| - 1] == '2' && so[|so| - 1] == 'o' && pid[|pid| - 1] == 'd';
    var si', pid' := SeedInitPath(w, i), PidPath(w, InstanceName(p, i));
    assert IsDigit(si'[|si'| - 1]) by {
      assert si'[|si'| - 1] == Decimal(i)[|Decimal(i)| - 1];
    }
    assert pid'[|pid'| - 1] == 'd';
    assert CsvPath(w)[|CsvPath(w)| - 1] == 'v';
  }

  // ---------------------------------------------------------------------
  // The rows

  /** Instance i recorded `row`: its name, the address start + i - 1, its
      overlay and seed-ISO paths, and no pid in a dry run. */
  predicate Records(c: Config, i: nat, row: Row)
  {
    var w := c.args.workdir;
    && i >= 1 && c.start + i <= IPv4.MaxAddr
    && row.name == InstanceName(c.args.namePrefix, i)
    && row.ip == IPv4.Format(c.start + i - 1)
    && row.disk == OverlayPath(w, i)
    && row.seedIso == SeedIsoPath(w, i)
    && (c.args.dryRun ==> row.pid == "")
  }

  /** A successful instance records its own row. */
  lemma InstanceRow(c: Config, h: Host, i: nat)
    requires i >= 1
    ensures Instance(c, h, i).result.Ok? ==> Records(c, i, Instance(c, h, i).result.value)
  {
  }

  /** A run that got through every iteration has one row per iteration,
      row k being the one iteration k produced. */
  lemma {:induction false} FoldRows(steps: seq<Step>)
    ensures var r := Fold(steps).result;
      r.Ok? ==> forall k :: 0 <= k < |steps| ==> steps[k].result == Ok(r.value[k])
  {
    if steps != [] {
      FoldRows(steps[..|steps| - 1]);
    }
  }

  /** Row k of a loop over 1..n that got through is the one instance k + 1
      recorded. */
  lemma StepsRows(c: Config, h: Host, n: nat)
    ensures var r := Fold(Steps(c, h, n)).result;
      r.Ok? ==> forall k :: 0 <= k < n ==> Records(c, k + 1, r.value[k])
  {
    var steps := Steps(c, h, n);
    FoldRows(steps);
    forall k | 0 <= k < n && Fold(steps).result.Ok?
      ensures Records(c, k + 1, Fold(steps).result.value[k])
    {
      InstanceRow(c, h, k + 1);
    }
  }

  /** rows of a successful main(): one per index 1..count in index order;
      row k is the one instance k + 1 recorded. */
  lemma RowsInIndexOrder(a: Args, h: Host)
    requires Main(a, h).result.Ok?
    ensures Setup(a, h).Ok?
    ensures var c := Setup(a, h).value; var rows := Main(a, h).result.value;
      && |rows| == Iterations(a)
      && forall k :: 0 <= k < |rows| ==> Records(c, k + 1, rows[k])
  {
    var c := Setup(a, h).value;
    assert Main(a, h).result == Fold(Steps(c, h, Iterations(a))).result;
    StepsRows(c, h, Iterations(a));
  }

  /** Rows recorded by instances 1, 2, ... in order carry the addresses
      start, start + 1, ...: they step up by one and so strictly increase. */
  lemma RecordedAddressesIncrease(c: Config, rows: seq<Row>)
    requires forall k :: 0 <= k < |rows| ==> Records(c, k + 1, rows[k])
    ensures forall k :: 0 <= k < |rows| ==> IPv4.Parse(rows[k].ip) == Some(c.start + k)
    ensures forall j, k :: 0 <= j < k < |rows| ==>
              IPv4.Parse(rows[k].ip).value == IPv4.Parse(rows[j].ip).value + (k - j)
  {
    forall k | 0 <= k < |rows|
      ensures IPv4.Parse(rows[k].ip) == Some(c.start + k)
    {
      assert Records(c, k + 1, rows[k]);
      IPv4.ParseFormat(c.start + k);
    }
  }

  /** Rows recorded by instances 1, 2, ... in order never share a name, an
      address, an overlay or a seed ISO. */
  lemma RecordedRowsDistinct(c: Config, rows: seq<Row>)
    requires forall k :: 0 <= k < |rows| ==> Records(c, k + 1, rows[k])
    ensures forall j, k :: 0 <= j < k < |rows| ==>
              && rows[j].name != rows[k].name && rows[j].ip != rows[k].ip
              && rows[j].disk != rows[k].disk && rows[j].seedIso != rows[k].seedIso
  {
    forall j, k | 0 <= j < k < |rows|
      ensures rows[j].name != rows[k].name && rows[j].ip != rows[k].ip
      ensures rows[j].disk != rows[k].disk && rows[j].seedIso != rows[k].seedIso
    {
      RecordsDiffer(c, j + 1, k + 1, rows[j], rows[k]);
    }
  }

  lemma RecordsDiffer(c: Config, i: nat, j: nat, ri: Row, rj: Row)
    requires i != j && Records(c, i, ri) && Records(c, j, rj)
    ensures ri.name != rj.name && ri.ip != rj.ip && ri.disk != rj.disk && ri.seedIso != rj.seedIso
  {
    IndexedPathsInjective(c.args.workdir, c.args.namePrefix, i, j);
    if ri.ip == rj.ip {
      IPv4.FormatInjective(c.start + i - 1, c.start + j - 1);
    }
  }

  /** The addresses of a successful run start at --start-ip and step up by
      one, so they strictly increase. */
  lemma AddressesIncrease(a: Args, h: Host)
    requires Main(a, h).result.Ok?
    ensures var rows := Main(a, h).result.value;
      && (|rows| > 0 ==> rows[0].ip == a.startIp)
      && (forall k :: 0 <= k < |rows| ==> IPv4.Parse(rows[k].ip).Some?)
      && (forall j, k :: 0 <= j < k < |rows| ==>
            IPv4.Parse(rows[k].ip).value == IPv4.Parse(rows[j].ip).value + (k - j))
  {
    RowsInIndexOrder(a, h);
    var c := Setup(a, h).value;
    var rows := Main(a, h).result.value;
    RecordedAddressesIncrease(c, rows);
    if |rows| > 0 {
      assert Records(c, 1, rows[0]);
      IPv4.FormatParse(a.startIp);
    }
  }

  /** No two rows of a successful run share a name, an address, an overlay
      or a seed ISO. */
  lemma RowsDistinct(a: Args, h: Host)
    requires Main(a, h).result.Ok?
    ensures var rows := Main(a, h).result.value;
      forall j, k :: 0 <= j < k < |rows| ==>
        && rows[j].name != rows[k].name && rows[j].ip != rows[k].ip
        && rows[j].disk != rows[k].disk && rows[j].seedIso != rows[k].seedIso
  {
    RowsInIndexOrder(a, h);
    RecordedRowsDistinct(Setup(a, h).value, Main(a, h).result.value);
  }

  // ---------------------------------------------------------------------
  // Overlay creation

  /** After the overlay step nothing is created. */
  lemma SeedAndLaunchCreatesNothing(c: Config, h: Host, i: nat)
    requires i >= 1 && c.start + i <= IPv4.MaxAddr
    ensures CreateCommands(SeedAndLaunch(c, h, i).actions) == []
  {
    var acts := SeedAndLaunch(c, h, i).actions;
    assert forall k :: 0 <= k < |acts| ==> !acts[k].CreateOverlay?;
    CreateCommandsNone(acts);
  }

  /** Instance i issues one qemu-img create, backing its overlay with the
      base image, exactly in a real run whose address is in range and whose
      overlay is absent; otherwise it issues none. */
  lemma InstanceCreates(c: Config, h: Host, i: nat)
    requires i >= 1
    ensures CreateCommands(Instance(c, h, i).actions)
         == if Creates(c, h, i) && c.start + i <= IPv4.MaxAddr
            then [CreateOverlay(c.base, OverlayPath(c.args.workdir, i))] else []
  {
    if c.start + i <= IPv4.MaxAddr {
      var created := if Creates(c, h, i) then [CreateOverlay(c.base, OverlayPath(c.args.workdir, i))] else [];
      assert CreateCommands(created) == created;
      if !(Creates(c, h, i) && !h.createOk(i)) {
        SeedAndLaunchCreatesNothing(c, h, i);
        CreateCommandsAppend(created, SeedAndLaunch(c, h, i).actions);
      }
    }
  }

  /** The create command instance k + 1 may issue. */
  function Target(c: Config, k: nat): Action
  {
    CreateOverlay(c.base, OverlayPath(c.args.workdir, k + 1))
  }

  function Targets(c: Config, n: nat): (r: seq<Action>)
    ensures |r| == n
  {
    seq(n, k requires 0 <= k < n => Target(c, k))
  }

  /** Whether instance k + 1 issues its create command. */
  function Flags(c: Config, h: Host, n: nat): (r: seq<bool>)
    ensures |r| == n
  {
    seq(n, k requires 0 <= k < n => Creates(c, h, k + 1) && c.start + k + 1 <= IPv4.MaxAddr)
  }

  lemma TargetsDistinct(c: Config, n: nat)
    ensures NoDuplicates(Targets(c, n))
  {
    var t := Targets(c, n);
    forall p, q | 0 <= p < q < n
      ensures t[p] != t[q]
    {
      IndexedPathsInjective(c.args.workdir, c.args.namePrefix, p + 1, q + 1);
    }
  }

  lemma StepsCreateAsFlagged(c: Config, h: Host, n: nat)
    ensures CreatesAsFlagged(Steps(c, h, n), Targets(c, n), Flags(c, h, n))
  {
    var steps, targets, flags := Steps(c, h, n), Targets(c, n), Flags(c, h, n);
    forall k | 0 <= k < n
      ensures CreateCommands(steps[k].actions) == if flags[k] then [targets[k]] else []
    {
      InstanceCreates(c, h, k + 1);
    }
  }

  /** The loop for 1..n issues no create command twice. */
  lemma StepsCreateOnce(c: Config, h: Host, n: nat)
    ensures NoDuplicates(CreateCommands(Fold(Steps(c, h, n)).actions))
  {
    StepsCreateAsFlagged(c, h, n);
    TargetsDistinct(c, n);
    FoldCreatesOnce(Steps(c, h, n), Targets(c, n), Flags(c, h, n));
  }

  /** Every create the loop for 1..n issues backs the overlay of one of its
      own instances that creates. */
  lemma StepsCreateOnly(c: Config, h: Host, n: nat)
    ensures forall x :: x in CreateCommands(Fold(Steps(c, h, n)).actions) ==>
              exists k :: 1 <= k <= n && Creates(c, h, k) && x == Target(c, k - 1)
  {
    var steps, targets, flags := Steps(c, h, n), Targets(c, n), Flags(c, h, n);
    StepsCreateAsFlagged(c, h, n);
    FoldCreatesOnlyFlagged(steps, targets, flags);
    forall x | x in CreateCommands(Fold(steps).actions)
      ensures exists k :: 1 <= k <= n && Creates(c, h, k) && x == Target(c, k - 1)
    {
      var k :| 0 <= k < n && flags[k] && x == targets[k];
      assert Creates(c, h, k + 1) && x == Target(c, k);
    }
  }

  /** When the loop for 1..n got through, it created the overlay of exactly
      the instances that create. */
  lemma StepsCreateAll(c: Config, h: Host, n: nat)
    requires Fold(Steps(c, h, n)).result.Ok?
    ensures forall k :: 1 <= k <= n ==>
              (Target(c, k - 1) in CreateCommands(Fold(Steps(c, h, n)).actions) <==> Creates(c, h, k))
  {
    var steps, targets, flags := Steps(c, h, n), Targets(c, n), Flags(c, h, n);
    StepsCreateAsFlagged(c, h, n);
    TargetsDistinct(c, n);
    FoldCreatesAll(steps, targets, flags);
    StepsInRange(c, h, n);
    forall k | 1 <= k <= n
      ensures Target(c, k - 1) in CreateCommands(Fold(steps).actions) <==> Creates(c, h, k)
    {
      assert targets[k - 1] == Target(c, k - 1) && flags[k - 1] == Creates(c, h, k);
    }
  }

  /** A loop that got through never ran past the last IPv4 address. */
  lemma StepsInRange(c: Config, h: Host, n: nat)
    ensures Fold(Steps(c, h, n)).result.Ok? ==> c.start + n <= IPv4.MaxAddr
  {
    if n > 0 && Fold(Steps(c, h, n)).result.Ok? {
      StepsRows(c, h, n);
      assert Records(c, n, Fold(Steps(c, h, n)).result.value[n - 1]);
    }
  }

  /** The instance whose address would be 255.255.255.255 raises at
      `curr_ip += 1`, at the head of its iteration, before it creates,
      writes, builds or launches anything. */
  lemma LastAddressNeverLaunched(c: Config, h: Host, n: nat)
    requires n >= 1 && c.start + n - 1 == IPv4.MaxAddr
    ensures Instance(c, h, n) == Step([], Err(AddressOverflow(n)))
  {
  }

  /** A run creates only overlays, each at most once, each one of its own
      instances' overlays that was absent before the run (so never the
      base image or the vars file, which must exist), always backed by the
      base image; a run that got through created every overlay that was
      absent, and a dry run creates none. */
  lemma OverlaysCreatedOnlyWhenAbsent(a: Args, h: Host)
    ensures var cr := CreateCommands(Main(a, h).actions);
      && NoDuplicates(cr)
      && (forall x :: x in cr ==>
            && x.CreateOverlay? && !a.dryRun && x.base == Child(a.workdir, a.baseQcow2) && x.overlay !in h.existing
            && x.overlay != Child(a.workdir, a.baseQcow2) && x.overlay != Child(a.workdir, a.vars)
            && exists k :: 1 <= k <= Iterations(a) && x.overlay == OverlayPath(a.workdir, k))
      && (Main(a, h).result.Ok? ==> forall k :: 1 <= k <= Iterations(a) ==>
            (CreateOverlay(Child(a.workdir, a.baseQcow2), OverlayPath(a.workdir, k)) in cr
             <==> !a.dryRun && OverlayPath(a.workdir, k) !in h.existing))
  {
    MainCreatesOnce(a, h);
    MainCreatesOnlyAbsent(a, h);
    if Main(a, h).result.Ok? {
      MainCreatesAllAbsent(a, h);
    }
  }

  /** main() issues no create command twice. */
  lemma MainCreatesOnce(a: Args, h: Host)
    ensures NoDuplicates(CreateCommands(Main(a, h).actions))
  {
    if Setup(a, h).Ok? {
      MainCreatesLoop(a, h);
      StepsCreateOnce(Setup(a, h).value, h, Iterations(a));
    } else {
      MainCreatesNone(a, h);
    }
  }

  /** Every create main() issues backs, with the base image, an overlay of
      its own instances that was absent before the run, in a real run. */
  lemma MainCreatesOnlyAbsent(a: Args, h: Host)
    ensures forall x :: x in CreateCommands(Main(a, h).actions) ==>
            && x.CreateOverlay? && !a.dryRun && x.base == Child(a.workdir, a.baseQcow2) && x.overlay !in h.existing
            && x.overlay != Child(a.workdir, a.baseQcow2) && x.overlay != Child(a.workdir, a.vars)
            && exists k :: 1 <= k <= Iterations(a) && x.overlay == OverlayPath(a.workdir, k)
  {
    if Setup(a, h).Ok? {
      var c := Setup(a, h).value;
      var n := Iterations(a);
      MainCreatesLoop(a, h);
      StepsCreateOnly(c, h, n);
      forall x | x in CreateCommands(Main(a, h).actions)
        ensures && x.CreateOverlay? && !a.dryRun && x.base == Child(a.workdir, a.baseQcow2) && x.overlay !in h.existing
                && x.overlay != Child(a.workdir, a.baseQcow2) && x.overlay != Child(a.workdir, a.vars)
                && exists k :: 1 <= k <= n && x.overlay == OverlayPath(a.workdir, k)
      {
        var k :| 1 <= k <= n && Creates(c, h, k) && x == Target(c, k - 1);
        assert x.overlay == OverlayPath(a.workdir, k);
      }
    } else {
      MainCreatesNone(a, h);
    }
  }

  /** A main() that got through created every overlay of a real run that
      was absent before it. */
  lemma MainCreatesAllAbsent(a: Args, h: Host)
    requires Main(a, h).result.Ok?
    ensures forall k :: 1 <= k <= Iterations(a) ==>
              (CreateOverlay(Child(a.workdir, a.baseQcow2), OverlayPath(a.workdir, k)) in CreateCommands(Main(a, h).actions)
               <==> !a.dryRun && OverlayPath(a.workdir, k) !in h.existing)
  {
    var c := Setup(a, h).value;
    MainCreatesLoop(a, h);
    LoopCreatesAllAbsent(c, h, Iterations(a));
    assert c.args == a && c.base == Child(a.workdir, a.baseQcow2);
  }

  /** StepsCreate with the target and the condition written out. */
  lemma LoopCreatesAllAbsent(c: Config, h: Host, n: nat)
    requires Fold(Steps(c, h, n)).result.Ok?
    ensures forall k :: 1 <= k <= n ==>
              (CreateOverlay(c.base, OverlayPath(c.args.workdir, k)) in CreateCommands(Fold(Steps(c, h, n)).actions)
               <==> !c.args.dryRun && OverlayPath(c.args.workdir, k) !in h.existing)
  {
    StepsCreateAll(c, h, n);
    forall k | 1 <= k <= n
      ensures CreateOverlay(c.base, OverlayPath(c.args.workdir, k)) in CreateCommands(Fold(Steps(c, h, n)).actions)
              <==> !c.args.dryRun && OverlayPath(c.args.workdir, k) !in h.existing
    {
      assert Target(c, k - 1) == CreateOverlay(c.base, OverlayPath(c.args.workdir, k));
      assert Target(c, k - 1) in CreateCommands(Fold(Steps(c, h, n)).actions) <==> Creates(c, h, k);
    }
  }

  /** A main() whose checks fail creates nothing. */
  lemma MainCreatesNone(a: Args, h: Host)
    requires Setup(a, h).Err?
    ensures CreateCommands(Main(a, h).actions) == []
  {
    PrologueCreatesNothing(a, h);
  }

  /** The directories and the interface listing create nothing. */
  lemma PrologueCreatesNothing(a: Args, h: Host)
    ensures CreateCommands(Prologue(a, h)) == []
  {
    CreateCommandsNone(Prologue(a, h));
  }

  /** Only the loop can create overlays: the prologue and the CSV write do
      not, and main() got through only if the loop did. */
  lemma MainCreatesLoop(a: Args, h: Host)
    requires Setup(a, h).Ok?
    ensures CreateCommands(Main(a, h).actions)
         == CreateCommands(Fold(Steps(Setup(a, h).value, h, Iterations(a))).actions)
    ensures Main(a, h).result == Fold(Steps(Setup(a, h).value, h, Iterations(a))).result
  {
    var body := Fold(Steps(Setup(a, h).value, h, Iterations(a)));
    assert Main(a, h) == Epilogue(a, Prologue(a, h), body);
    PrologueCreatesNothing(a, h);
    EpilogueCreates(a, Prologue(a, h), body);
  }

  /** After a prologue that creates nothing, the run creates what the loop
      creates and ends as the loop ended. */
  lemma EpilogueCreates(a: Args, pre: seq<Action>, body: Run)
    requires CreateCommands(pre) == []
    ensures CreateCommands(Epilogue(a, pre, body).actions) == CreateCommands(body.actions)
    ensures Epilogue(a, pre, body).result == body.result
  {
    CreateCommandsAppend(pre, body.actions);
    if body.result.Ok? && !a.dryRun {
      var csv: seq<Action> := [WriteCsv(CsvPath(a.workdir), body.result.value)];
      CreateCommandsNone(csv);
      CreateCommandsAppend(pre + body.actions, csv);
    }
  }
}
