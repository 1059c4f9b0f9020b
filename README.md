# Verified model of the QEMU overlay provisioning scripts

Two macOS scripts provision QEMU aarch64 virtual machines on a bridged network:

- `spawn_overlays.py` creates a fleet of `count` VMs. Instance `i` is named `prefix-i`. It gets the static address `start + (i - 1)` and its own qcow2 overlay of a shared base image. It also gets a cloud-init seed directory rendered from three templates, a seed ISO built by hdiutil, else by mkisofs when it is on `PATH`, else by xorrisofs, and a QEMU process. One row per instance goes into `instances.csv`.
- `spawn_vm.py` starts a single VM. Its overlay is backed by `base/gold.qcow2`. Its MAC address comes from the QEMU prefix `52:54:00`. The VM's address is then found by matching that MAC in the host's `arp -an` output, with a light ping sweep of the subnet to fill the ARP cache.

The Dafny project models the deterministic logic underneath the subprocess calls. Every external program (`qemu-img`, `qemu-system-aarch64`, `hdiutil`, `mkisofs`, `xorrisofs`, `ifconfig`, `ipconfig`, `arp`, `ping`) is an oracle. What it answers is an input: whether it is on `PATH`, whether it exits with status 0, whether a file exists, and what a pid file holds. What the scripts do is a trace of actions plus a result, where a `Result` error stands for a raised exception.

Modules, one per file:

| file | module | models |
|---|---|---|
| `wrappers.dfy` | `Wrappers` | `Option` (Python's `None`) and `Result` (a raised exception) |
| `text.dfy` | `Text` | `str(int)`, `int(str)`, `str.strip()`, `str.split`/`str.join` with a one-character separator, two-digit lower-case hex, `str.lower()` |
| `ipv4.dfy` | `IPv4` | IPv4 addresses as 32-bit naturals and dotted quads; `ipaddress.ip_address`; networks, netmasks and `hosts()`; `ip_next`; `guess_gateway`, all as the `ipaddress` module of Python 3.9.5 and later behaves (octets with leading zeros rejected; `hosts()` of a /31 is both addresses and of a /32 the one address) |
| `dns.dfy` | `Dns` | the DNS list normalisation of `main` |
| `paths.dfy` | `Paths` | `pathlib` joins, `.name`, `.suffix`, `.with_suffix` |
| `templates.dfy` | `Templates` | the three `str.format` templates, line by line |
| `iso_builder.dfy` | `IsoBuilder` | `build_seed_iso`, its fallback chain and its early returns |
| `fleet.dfy` | `Fleet` | `main` of `spawn_overlays.py`: setup, the per-index loop (as a method proved against a fold), `instances.csv` |
| `fleet_creates.dfy` | `FleetCreates` | which `qemu-img create` commands a loop trace holds |
| `fleet_properties.dfy` | `FleetProperties` | the fleet's promises: distinct names, addresses and paths; create-only-when-absent; rows in index order |
| `fleet_writes.dfy` | `FleetWrites` | which paths the run itself writes: only its work area, so inputs outside it are never written |
| `spawn_vm.dfy` | `SpawnVm` | `run`, `ensure_paths`, `make_overlay`, `launch_vm`, `gen_mac`, `cidr_from_ip_mask`, `light_ping_sweep` |
| `arp.dfy` | `Arp` | the regular expression of `arp_lookup_by_mac` and the lookup loop |

## Model

| member | source | states |
|---|---|---|
| Text.Decimal | spawn_overlays.py:220 | `str(n)` of a natural: one or more ASCII digits, exactly one digit iff n < 10 |
| Text.ParseDecimalOfDecimal | spawn_overlays.py:220 | reading back the decimal text of n gives n |
| Text.DecimalInjective | spawn_overlays.py:220 | distinct indices have distinct decimal texts, so `prefix-i` names differ |
| Text.DecimalIsCanonical | spawn_overlays.py:221 | `str(n)` never has a leading zero |
| Text.DecimalOfParseDecimal | spawn_overlays.py:102 | a canonical digit string is the decimal text of its value |
| Text.IntToString | spawn_overlays.py:240 | `str(i)` of any int: starts with '-' exactly for negatives |
| Text.IntToStringInjective | spawn_overlays.py:240 | `str` on ints is injective |
| Text.TrimStart | spawn_overlays.py:211 | drops exactly the leading whitespace: the result is a suffix that starts with a non-space, and everything dropped is whitespace |
| Text.TrimEnd | spawn_overlays.py:211 | drops exactly the trailing whitespace |
| Text.StripIsStripped | spawn_overlays.py:211 | `strip()` leaves no whitespace at either end |
| Text.StripIsSlice | spawn_overlays.py:211 | `strip()` is a contiguous slice of its input, and only whitespace lies outside it |
| Text.StripOfStripped | spawn_overlays.py:211 | text with no whitespace at either end is unchanged by `strip()` |
| Text.StripIdempotent | spawn_overlays.py:211 | `strip()` twice is `strip()` once |
| Text.Split | spawn_overlays.py:211 | `str.split(sep)` yields at least one field and no field holds the separator |
| Text.JoinSplit | spawn_overlays.py:211 | joining the fields of a split gives back the text |
| Text.SplitJoin | spawn_overlays.py:211 | splitting a join of separator-free fields gives back the fields |
| Text.SplitAppend | spawn_overlays.py:211 | splitting at one separator splits each side on its own |
| Text.SplitFieldThenRest | spawn_overlays.py:211 | a separator-free first field followed by the separator splits off as one field |
| Text.SplitNoSep | spawn_overlays.py:211 | text without the separator is one field |
| Text.JoinAvoids | spawn_overlays.py:211 | a join holds no character that neither the separator nor any part holds |
| Text.HexValueOfDigit | spawn_vm.py:81 | a hex digit reads back as its value |
| Text.Hex2 | spawn_vm.py:81 | `f"{b:02x}"`: exactly two lower-case hex digits |
| Text.ParseHex2OfHex2 | spawn_vm.py:81 | reading the two hex digits of b gives b |
| Text.Hex2OfParseHex2 | spawn_vm.py:81 | two lower-case hex digits are the `02x` text of their value |
| Text.Lower | spawn_vm.py:104 | `str.lower()` restricted to ASCII, which is all the MAC class `[0-9a-fA-F:]` needs: it keeps the length and lowers each character |
| IPv4.Octets | spawn_overlays.py:221 | the four octets of an address, each below 256 |
| IPv4.OctetsRoundTrip | spawn_overlays.py:221 | an address is recovered from its octets |
| IPv4.FromOctetsRoundTrip | spawn_overlays.py:221 | four octets make an address whose octets are they |
| IPv4.ParseOctet | spawn_overlays.py:102 | an accepted octet field is canonical, has at most three digits and a value below 256 |
| IPv4.ParseFormat | spawn_overlays.py:103 | the text of every address parses back to that address |
| IPv4.FormatParse | spawn_overlays.py:102 | only canonical text parses: text that parses is the text of its address |
| IPv4.FormatInjective | spawn_overlays.py:221 | distinct addresses have distinct texts |
| IPv4.FormatChars | spawn_overlays.py:221 | an address's text holds only digits and dots (no '/', no newline) |
| IPv4.IpNext | spawn_overlays.py:101-103 | `ip_next` succeeds iff the input parses and value + step stays in 0..2^32-1 (no wrap-around); its result parses to value + step |
| IPv4.IpNextZero | spawn_overlays.py:101-103 | a step of 0 returns a valid input unchanged |
| IPv4.IpNextCompose | spawn_overlays.py:101-103 | stepping by m and then by n is stepping by m + n |
| IPv4.IpNextOf | spawn_overlays.py:101-103 | for an address a in range, `ip_next` is the text of a + step |
| IPv4.NetworkFits | spawn_overlays.py:107 | the network of a and a prefix is aligned to its block, holds a and fits in the address space |
| IPv4.NetworkContaining | spawn_overlays.py:107 | `ip_network(..., strict=False)` is a valid network of the given prefix that contains the address |
| IPv4.Hosts | spawn_overlays.py:108 | `hosts()` is non-empty, strictly increasing and inside the network |
| IPv4.HostsOfOrdinaryNetwork | spawn_overlays.py:108 | up to /30 the hosts are exactly the addresses strictly between the network and broadcast addresses |
| IPv4.PrefixOfNetmask | spawn_vm.py:91 | the prefix found has the given netmask, and none is found only when no prefix has it |
| IPv4.PrefixFromDigits | spawn_vm.py:91 | a prefix read from digits is their decimal value |
| IPv4.PrefixFromMaskText | spawn_vm.py:91 | a dotted mask names a prefix only as a netmask or a hostmask of it |
| IPv4.ParseNetwork | spawn_vm.py:91 | a parsed network is valid and fits in the address space |
| IPv4.ParseNetworkOf | spawn_vm.py:91 | a valid address and mask give the network of that prefix containing the address |
| IPv4.ParseNetworkRejects | spawn_vm.py:91 | an invalid address or mask raises |
| IPv4.PrefixTextOfInt | spawn_overlays.py:107 | `str(p)` names prefix p iff 0 <= p <= 32 |
| IPv4.GuessGatewayIsFirstHost | spawn_overlays.py:105-108 | `guess_gateway` is the text of the first host of the start address's network: network + 1 up to /30, the network itself for /31 and /32 |
| IPv4.FirstHostIsLeast | spawn_overlays.py:108 | the first host is the least of them |
| IPv4.GuessGatewayFails | spawn_overlays.py:105-108 | an invalid start address or prefix raises |
| Dns.StripNonEmpty | spawn_overlays.py:211 | keeps at most as many entries as there are fields |
| Dns.StripNonEmptyContents | spawn_overlays.py:211 | every field whose strip is non-empty is kept, stripped, and every entry kept is the non-empty strip of some field |
| Dns.StripNonEmptyAppend | spawn_overlays.py:211 | the comprehension keeps the fields' order: filtering a concatenation concatenates the filtered parts |
| Dns.StripNonEmptyOne | spawn_overlays.py:211 | one field contributes its strip when that is non-empty, and nothing otherwise |
| Dns.EntriesAreClean | spawn_overlays.py:211 | every kept entry is non-empty, has no whitespace at either end and holds no comma |
| Dns.NormalizedSplitsIntoEntries | spawn_overlays.py:211 | the normalised list splits on ',' back into exactly the kept entries, and is "" when none is kept |
| Dns.StripNonEmptyKeepsClean | spawn_overlays.py:211 | clean entries are kept as they are |
| Dns.NormalizeEmpty | spawn_overlays.py:211 | an empty list normalises to "" |
| Dns.NormalizeIdempotent | spawn_overlays.py:211 | normalising twice is normalising once |
| Paths.LastIndex | spawn_overlays.py:130 | `rfind`: -1 or a position that holds the character |
| Paths.LastIndexIsLast | spawn_overlays.py:130 | no occurrence follows the one found |
| Paths.LastIndexUnique | spawn_overlays.py:130 | an occurrence with none after it is the one found |
| Paths.Name | spawn_overlays.py:130 | `.name` is a suffix of the path |
| Paths.NameHasNoSlash | spawn_overlays.py:130 | `.name` holds no '/' |
| Paths.Suffix | spawn_overlays.py:130 | `.suffix` is "" or a dot-led tail of the name, shorter than it and at least two characters long |
| Paths.SuffixHasOneDot | spawn_overlays.py:130 | a suffix holds no '.' after its first character |
| Paths.WithSuffix | spawn_overlays.py:130 | `.with_suffix` raises exactly for a path with an empty name |
| Paths.IsoSuffix | spawn_overlays.py:130 | the suffix of `dir/stem.iso` is ".iso" for a stem without '/' or '.' |
| Paths.DropIsoSuffix | spawn_overlays.py:130 | `seed-i.iso` with its suffix dropped is `seed-i` |
| Paths.PutIsoSuffix | spawn_overlays.py:143 | `seed-i` with suffix ".iso" is `seed-i.iso` again |
| Templates.FieldsOf | spawn_overlays.py:240-242 | every placeholder of a line is among its fields |
| Templates.RenderLine | spawn_overlays.py:240-242 | a line renders iff every placeholder in it has a value (else `KeyError`) |
| Templates.RenderAppend | spawn_overlays.py:240-242 | rendering distributes over concatenation of pieces |
| Templates.PieceLands | spawn_overlays.py:240-242 | each piece's rendering lands between the renderings of what precedes and follows it |
| Templates.HoleLands | spawn_overlays.py:240-242 | a placeholder's value lands exactly at its position in the line |
| Templates.LiteralLands | spawn_overlays.py:240-242 | a literal lands verbatim at its position |
| Templates.FixedLine | spawn_overlays.py:240-242 | a line without placeholders renders the same whatever the values |
| Templates.RenderLines | spawn_overlays.py:240-242 | a template renders iff all its placeholders have values, line by line |
| Templates.Format | spawn_overlays.py:240-242 | `str.format` of a template succeeds iff all its placeholders have values |
| Templates.RenderAvoidsNewline | spawn_overlays.py:240-242 | a rendered line holds no newline when no value does |
| Templates.FormatLines | spawn_overlays.py:240-242 | the formatted text splits on newlines into exactly the rendered lines |
| Templates.DocFieldsSupplied | spawn_overlays.py:240-242 | when every line renders, every field of the template has a value |
| Templates.RenderLinesOf | spawn_overlays.py:240-242 | lines rendering one by one to e render together to e |
| Templates.RenderLinesAppend | spawn_overlays.py:240-242 | rendering distributes over concatenation of templates |
| Templates.FixedLinesRender | spawn_overlays.py:24-70 | a run of placeholder-free lines renders to itself |
| Templates.UserDataValues | spawn_overlays.py:240 | user-data is formatted with hostname, iface, ip, prefix and gateway, and nothing else |
| Templates.NetworkConfigValues | spawn_overlays.py:241 | network-config is formatted with iface, ip, prefix, gateway and dns_list |
| Templates.UserDataFieldsSupplied | spawn_overlays.py:24-70 | the user-data template needs only the values the script passes, so formatting never raises |
| Templates.NetworkConfigFieldsSupplied | spawn_overlays.py:72-81 | the network-config template needs only the values the script passes |
| Templates.MetaDataFieldsSupplied | spawn_overlays.py:83-85 | the meta-data template needs only the hostname |
| Templates.MetaDataRendered | spawn_overlays.py:83-85 | meta-data's `instance-id` and `local-hostname` lines both carry the instance name |
| Templates.MetaDataLines | spawn_overlays.py:242 | the formatted meta-data text is exactly those lines |
| Templates.NetworkConfigRendered | spawn_overlays.py:72-81 | network-config renders with the interface, `ip/prefix`, the gateway and the DNS list on their own lines |
| Templates.NetworkConfigLines | spawn_overlays.py:241 | the formatted network-config text is exactly those lines |
| Templates.UserEchoRendered | spawn_overlays.py:69 | the runcmd echo line names iface, `ip/prefix` and the gateway |
| Templates.UserDataHeadRendered | spawn_overlays.py:24-27 | the hostname lands on the `hostname:` line and before `.local` on the `fqdn:` line |
| Templates.UserDataTailRendered | spawn_overlays.py:69-70 | the template ends with the echo line and the empty line after the final newline |
| Templates.UserDataRendered | spawn_overlays.py:24-70 | the whole user-data document: the head, the fixed body verbatim, the echo line |
| Templates.UserDataLines | spawn_overlays.py:240 | the formatted user-data text is exactly those lines |
| IsoBuilder.Argv | spawn_overlays.py:141-159 | each builder's command packs the seed directory (last argument), names its output and uses the volume id `cidata` |
| IsoBuilder.RunBuildSeedIso | spawn_overlays.py:128-162 | the imperative chain with its early returns issues the commands and reaches the result that `BuildSeedIso` describes |
| IsoBuilder.PreferenceOrder | spawn_overlays.py:128-160 | hdiutil runs first, on `tmp_out`, once the stale output is removed; a fallback runs only if hdiutil did not place the image, and it is mkisofs when mkisofs is on PATH, xorrisofs only otherwise; fallbacks write `out_iso` |
| IsoBuilder.SuccessIsLastCommand | spawn_overlays.py:141-160 | the tool reported as successful is the last command issued |
| IsoBuilder.RaisesExactly | spawn_overlays.py:128-162 | the build raises iff the name is empty, or hdiutil did not place the image and the chosen fallback failed or none was on PATH |
| IsoBuilder.MkisofsShadowsXorrisofs | spawn_overlays.py:153-160 | a failing mkisofs on PATH raises even when a working xorrisofs is present |
| IsoBuilder.SuccessMonotone | spawn_overlays.py:128-162 | more steps succeeding never turns a successful build into a failed one |
| IsoBuilder.SeedIsoNeedsNoRename | spawn_overlays.py:130-147 | for `seed-i.iso` hdiutil produces `out_iso` itself, so whether a rename would work is irrelevant |
| Fleet.Setup | spawn_overlays.py:195-214 | the run proceeds iff the base qcow2, vars.fd and BIOS exist, the gateway is given or can be guessed, and the start address parses; it then carries the guessed or given gateway and the normalised DNS list |
| Fleet.SeedStemChars | spawn_overlays.py:226 | `seed-i` holds no '/' and no '.' |
| Fleet.SeedIsoBuildIsBuildSeedIso | spawn_overlays.py:261 | instance i builds its ISO from `seeds/seed-init-i` into `seeds/seed-i.iso` |
| Fleet.BuildSeedIsoFor | spawn_overlays.py:257-261 | the per-instance ISO build as a method meets its specification |
| Fleet.QemuArgv | spawn_overlays.py:264-278 | `qemu_cmd` word by word: `sudo qemu-system-aarch64` with hvf and the `virt,highmem=on` machine, `-smp` and `-m`, the BIOS and the pflash vars drive, the overlay drive with `cache=none,discard=unmap`, the seed ISO drive `readonly=on`, the bridged NIC and the name; then 25 words ending in `-nographic` without a pid file, else 31 ending in `-daemonize -pidfile <pid> -serial null -monitor none` |
| Fleet.InstanceQemuArgv | spawn_overlays.py:224-278 | instance i's command carries the BIOS and vars from the arguments, its own overlay (uncached) and its own seed ISO (read-only), its name, and its own pid file unless `--no-daemonize` |
| Fleet.Fold | spawn_overlays.py:219-301 | a loop that completes has one row per iteration |
| Fleet.FoldAppend | spawn_overlays.py:219-301 | one more iteration extends the fold |
| Fleet.FoldStopsAtFailure | spawn_overlays.py:219-301 | once an iteration raises, later iterations change neither the trace nor the result |
| Fleet.Steps | spawn_overlays.py:219 | the loop runs one step per index 1..n |
| Fleet.StepsPrefix | spawn_overlays.py:219 | the first m steps of n are the steps of m |
| Fleet.ProvisionOne | spawn_overlays.py:219-301 | one loop iteration, run imperatively, is the step `Instance` specifies, and a successful one leaves `curr_ip + 1` in range |
| Fleet.RunSeedAndLaunch | spawn_overlays.py:238-301 | steps 2 to 4 of an iteration, run imperatively, are what `SeedAndLaunch` specifies |
| Fleet.ProvisionAll | spawn_overlays.py:213-301 | the imperative loop with `curr_ip += 1` and `rows.append` produces the fold of the per-index steps |
| Fleet.Provision | spawn_overlays.py:188-311 | the whole of `main`, run imperatively, produces the trace and result `Main` specifies |
| FleetCreates.CreateCommands | spawn_overlays.py:236 | the create commands of a trace are no more than its actions |
| FleetCreates.CreateCommandsFrom | spawn_overlays.py:236 | every create command listed is a create command of the trace |
| FleetCreates.CreateCommandsNone | spawn_overlays.py:236 | a trace without creates lists none |
| FleetCreates.CreateCommandsAppend | spawn_overlays.py:236 | the creates of a concatenation are the creates of each part in order |
| FleetCreates.PickedFrom | spawn_overlays.py:230-236 | only flagged targets are picked |
| FleetCreates.PickedOnce | spawn_overlays.py:230-236 | distinct targets are picked at most once each |
| FleetCreates.PickedAll | spawn_overlays.py:230-236 | a target is picked iff it is flagged |
| FleetCreates.Ran | spawn_overlays.py:219-301 | the number of iterations that ran is all of them when the loop completes |
| FleetCreates.FoldCreatesPicked | spawn_overlays.py:219-301 | a loop whose iterations each create their own target when flagged creates exactly the flagged targets of the iterations that ran, in order |
| FleetCreates.FoldCreatesOnce | spawn_overlays.py:230-236 | such a loop creates no target twice |
| FleetCreates.FoldCreatesOnlyFlagged | spawn_overlays.py:230-236 | such a loop creates only flagged targets |
| FleetCreates.FoldCreatesAll | spawn_overlays.py:230-236 | a completed loop creates a target iff it is flagged |
| FleetProperties.IndexedPathsInjective | spawn_overlays.py:220-227 | distinct indices give distinct names, overlays, seed directories, seed ISOs and pid files |
| FleetProperties.ArtifactKindsDistinct | spawn_overlays.py:224-227 | an overlay, a seed directory, a seed ISO and a pid file are never the same path, whatever their indices, and none is `instances.csv` |
| FleetProperties.InstanceRow | spawn_overlays.py:301 | a successful iteration records `prefix-i`, the address start + i - 1, `root-i.qcow2` and `seed-i.iso` |
| FleetProperties.FoldRows | spawn_overlays.py:301 | the rows of a completed loop are the rows of its iterations |
| FleetProperties.StepsRows | spawn_overlays.py:301 | row k of a completed loop is the record of index k + 1 |
| FleetProperties.RowsInIndexOrder | spawn_overlays.py:213-301 | a successful `main` has exactly one row per index, in index order |
| FleetProperties.RecordedAddressesIncrease | spawn_overlays.py:214-222 | recorded addresses are start, start + 1, ..., strictly increasing by one |
| FleetProperties.RecordedRowsDistinct | spawn_overlays.py:220-226 | recorded rows have pairwise distinct names, addresses, disks and seed ISOs |
| FleetProperties.RecordsDiffer | spawn_overlays.py:220-226 | records of two different indices differ in every identifying column |
| FleetProperties.AddressesIncrease | spawn_overlays.py:214-222 | in a successful `main` the first row has the start address and the addresses rise by one per row |
| FleetProperties.RowsDistinct | spawn_overlays.py:219-301 | in a successful `main` no two rows share a name, address, disk or seed ISO |
| FleetProperties.SeedAndLaunchCreatesNothing | spawn_overlays.py:238-301 | steps 2 to 4 never create an overlay |
| FleetProperties.InstanceCreates | spawn_overlays.py:229-236 | iteration i issues one `qemu-img create -b base root-i.qcow2` iff it is not a dry run and the overlay is absent, and no other create |
| FleetProperties.Targets | spawn_overlays.py:236 | one create target per index |
| FleetProperties.Flags | spawn_overlays.py:230-233 | one create decision per index |
| FleetProperties.TargetsDistinct | spawn_overlays.py:224 | the create targets of distinct indices differ |
| FleetProperties.StepsCreateAsFlagged | spawn_overlays.py:229-236 | the loop's iterations create their own overlay exactly when flagged |
| FleetProperties.StepsCreateOnce | spawn_overlays.py:229-236 | the loop creates no overlay twice |
| FleetProperties.StepsCreateOnly | spawn_overlays.py:229-236 | the loop creates only overlays of indices whose create was due |
| FleetProperties.StepsCreateAll | spawn_overlays.py:229-236 | a completed loop creates the overlay of an index iff its create was due |
| FleetProperties.StepsInRange | spawn_overlays.py:222 | a completed loop never incremented past 255.255.255.255 |
| FleetProperties.LastAddressNeverLaunched | spawn_overlays.py:219-222 | the instance that would get 255.255.255.255 fails at `curr_ip += 1` with no action at all |
| FleetProperties.OverlaysCreatedOnlyWhenAbsent | spawn_overlays.py:195-236 | `main` creates each overlay at most once, only when not a dry run and the overlay is absent, always backed by the base qcow2, never onto the base qcow2 or vars.fd, and (when it completes) for every absent overlay |
| FleetProperties.MainCreatesOnce | spawn_overlays.py:229-236 | `main` issues no create twice |
| FleetProperties.MainCreatesOnlyAbsent | spawn_overlays.py:195-236 | every create of `main` targets an absent `root-k.qcow2` of an index in 1..count, backed by the base image, which it never overwrites |
| FleetProperties.MainCreatesAllAbsent | spawn_overlays.py:229-236 | a successful `main` creates `root-k.qcow2` iff not a dry run and it was absent |
| FleetProperties.LoopCreatesAllAbsent | spawn_overlays.py:229-236 | the same for the loop alone |
| FleetProperties.MainCreatesNone | spawn_overlays.py:202-214 | when the setup checks fail, nothing is created |
| FleetProperties.PrologueCreatesNothing | spawn_overlays.py:192-201 | the directories and interface listing create no overlay |
| FleetProperties.MainCreatesLoop | spawn_overlays.py:213-311 | `main`'s creates and result are the loop's |
| FleetProperties.EpilogueCreates | spawn_overlays.py:303-311 | writing `instances.csv` creates nothing and keeps the loop's result |
| FleetWrites.InstanceWrites | spawn_overlays.py:224-299 | one iteration writes only its own overlay, seed-init directory and files, `seeds/seed-i` and `seeds/seed-i.iso`, and its pid file |
| FleetWrites.SeedAndLaunchWrites | spawn_overlays.py:238-299 | the seed files, the ISO build and the launch write only below `seeds/` and the pid file |
| FleetWrites.PrologueWrites | spawn_overlays.py:192-201 | the prologue (creating `overlays` and `seeds`, listing interfaces) writes only in the work area |
| FleetWrites.FoldWrites | spawn_overlays.py:219-301 | the loop writes nothing its iterations do not |
| FleetWrites.LoopWrites | spawn_overlays.py:219-301 | the loop over indices 1..count writes only in the work area |
| FleetWrites.EpilogueWrites | spawn_overlays.py:303-311 | writing `instances.csv` stays in the work area |
| FleetWrites.MainWritesOnlyWorkArea | spawn_overlays.py:188-311 | every path `main` itself writes, creates or removes is `overlays`, `seeds` or below them, `instances.csv`, or the pid file `workdir / <prefix>-k.pid`, which lies outside the working directory when the prefix is absolute |
| FleetWrites.AbsolutePrefixPidFile | spawn_overlays.py:227 | with an absolute `--name-prefix`, `workdir / f"{name}.pid"` is the prefixed name itself, whatever the working directory |
| FleetWrites.PidFileEscapesWorkdir | spawn_overlays.py:227 | a prefix `/etc/x` with working directory `/w` writes `/etc/x-1.pid`, which is not below `/w` |
| FleetWrites.MainLeavesInputsAlone | spawn_overlays.py:195-197 | a base image, vars file and BIOS outside that work area are never written by `main` |
| FleetWrites.LaunchWritesPidArgument | spawn_overlays.py:275-278 | the one path a launch writes is the `-pidfile` argument of its command, and none with `--no-daemonize` |
| FleetWrites.FirstInstanceWritesSeedIso | spawn_overlays.py:128-162 | when instance 1's seed-ISO build succeeds, hdiutil, mkisofs or xorrisofs wrote `seeds/seed-1.iso` |
| FleetWrites.BaseInSeedsIsOverwritten | spawn_overlays.py:195-261 | a base image named `seeds/seed-1.iso` passes the existence check and is written over by instance 1's ISO build whenever that build succeeds |
| SpawnVm.RunArgv | spawn_vm.py:41-47 | `sudo` is prepended exactly when `sudo=True` and the effective uid is not 0; otherwise the command is unchanged |
| SpawnVm.Run | spawn_vm.py:41-54 | `run` raises iff `check` is set and the exit status is non-zero, reporting the argv it ran; otherwise it returns `stdout.strip()` when output is captured and "" when it is not |
| SpawnVm.EnsurePaths | spawn_vm.py:56-61 | the three directories are `base`, `overlays` and `logs` under the base directory |
| SpawnVm.EnsurePathsRelative | spawn_vm.py:62-65 | for a relative name the files are `overlays/<name>.qcow2`, `overlays/<name>.pid` and `logs/<name>.log` |
| SpawnVm.InDir | spawn_vm.py:62-64 | joining a sub-directory and a relative file name spells out the path |
| SpawnVm.VmFilesDistinct | spawn_vm.py:62-64 | a VM's overlay, pid file and log file are three different paths |
| SpawnVm.VmPathsInjective | spawn_vm.py:62-64 | distinct relative names give distinct overlay, pid and log paths |
| SpawnVm.AbsoluteNameSharesOverlay | spawn_vm.py:62 | an absolute name replaces the directory, so two names can share an overlay |
| SpawnVm.CreateArgv | spawn_vm.py:72 | the create command is `qemu-img create ... -b gold overlay` |
| SpawnVm.MakeOverlay | spawn_vm.py:67-72 | a missing gold image raises before anything else, even if the overlay exists; an existing overlay is reused with no command; otherwise exactly one create runs and its failure raises |
| SpawnVm.LaunchArgv | spawn_vm.py:156-170 | the QEMU command word by word: `qemu-system-aarch64 -accel hvf -machine virt,highmem=on -cpu host -smp <cpus> -m <ram_mb>`, the UEFI code and pflash vars, attaches the overlay with `cache=none,discard=unmap`, carries `mac=<mac>` on the `-nic`, and ends with `-nographic -daemonize -pidfile <pid> -D <log>` |
| SpawnVm.LaunchVmSucceeds | spawn_vm.py:136-184 | `launch_vm` succeeds iff the ROM, vars.fd and gold image exist, the overlay exists or is created, QEMU starts and the pid file appears; it returns the paths of `ensure_paths` |
| SpawnVm.LaunchVmCheckOrder | spawn_vm.py:145-153 | the directories are made first; then the ROM, vars.fd and gold image are checked in that order, and each missing one raises before any command |
| SpawnVm.LaunchVmCommands | spawn_vm.py:145-173 | the commands issued are the create (only for an absent overlay) and then, unless it failed, the QEMU launch through `sudo` when not root |
| SpawnVm.MacOctets | spawn_vm.py:77-80 | the octets start 52:54:00, the fourth is the draw in 0..0x7f, the sixth is `last_octet & 0xFF` when given |
| SpawnVm.HexParts | spawn_vm.py:81 | each octet becomes its two-digit lower-case hex text |
| SpawnVm.ParseMac | spawn_vm.py:81 | a parsed MAC is six octets |
| SpawnVm.ParseMacText | spawn_vm.py:81 | the text of six octets parses back to them |
| SpawnVm.MacTextOfParse | spawn_vm.py:81 | a text that parses is the text of its octets |
| SpawnVm.MacTextInjective | spawn_vm.py:81 | distinct octets give distinct MAC texts |
| SpawnVm.GenMacText | spawn_vm.py:74-81 | `gen_mac` is 17 characters and starts with `52:54:00:` |
| SpawnVm.GenMacOctets | spawn_vm.py:77-81 | `gen_mac`'s text reads back as the octets 52, 54, 00, a fourth at most 0x7f, and the sixth equal to `last_octet & 0xFF` when given |
| SpawnVm.GenMacIsLower | spawn_vm.py:81 | `gen_mac` is already lower case, so `mac.lower()` is the same MAC |
| SpawnVm.CidrFromIpMask | spawn_vm.py:89-97 | the network returned is valid and fits in the address space |
| SpawnVm.CidrOfValidMask | spawn_vm.py:90-92 | a valid address and mask give the network of that prefix holding the address |
| SpawnVm.CidrFallsBackToSlash24 | spawn_vm.py:93-97 | a valid address with an invalid mask falls back to the /24 `a.b.c.0/24`, which holds the address |
| SpawnVm.Slash24 | spawn_vm.py:95-96 | the address `a.b.c.0` has the first three octets and a zero last octet |
| SpawnVm.SameSlash24 | spawn_vm.py:95-97 | `a.b.c.0/24` is the /24 of the address |
| SpawnVm.Window | spawn_vm.py:121 | the window is at least 1, and above 1 only when 2 * window fits in both the limit and the host count |
| SpawnVm.SweepIndex | spawn_vm.py:117-120 | the first index of the host, or len(hosts) // 2 when it is not listed |
| SpawnVm.CandidatesWindow | spawn_vm.py:115-122 | the candidates are the contiguous in-bounds slice around the index, at most 2 * window long, and include the host when it is listed |
| SpawnVm.SliceAround | spawn_vm.py:122 | the clamped slice bounds are in range and at most 2 * w apart, and they cover the index |
| SpawnVm.FindHost | spawn_vm.py:117-120 | the search loop computes the sweep index |
| SpawnVm.FirstIndexUnique | spawn_vm.py:118 | the first position holding the host is its index |
| SpawnVm.PingAll | spawn_vm.py:124-127 | one `ping -c 1 -W 100 <ip>` per candidate, in order |
| SpawnVm.LightPingSweep | spawn_vm.py:108-127 | no host address pings nothing; an unparsable one raises; otherwise it pings exactly the candidates around the host |
| Arp.DigitsFromSpec | spawn_vm.py:103 | `\d+` takes the maximal run of digits |
| Arp.DigitsFromMaximal | spawn_vm.py:103 | a run of digits followed by a non-digit is the run found |
| Arp.GroupAtSpec | spawn_vm.py:103 | a digit group ends at c iff digits run from the start up to a c |
| Arp.FieldsChars | spawn_vm.py:103 | the matched quad holds only digits and dots |
| Arp.IpAt | spawn_vm.py:103 | `\(\d+\.\d+\.\d+\.\d+\)` matches from a '(' to a ')' at least eight characters on |
| Arp.IpAtQuadAt | spawn_vm.py:103 | four digit runs separated by dots inside parentheses match the address part |
| Arp.LastTailIsLast | spawn_vm.py:103 | the greedy `.*` takes the rightmost ` at <mac> ` that fits, with "at" in any letter case as `re.I` allows |
| Arp.FirstNewlineSpec | spawn_vm.py:103 | `.` stops at the first newline |
| Arp.TailFound | spawn_vm.py:103 | a tail found is ` at ` in any letter case, 17 MAC-class characters and a space, within the line |
| Arp.TailIsLast | spawn_vm.py:103 | every tail that fits, ` at `, ` AT `, ` At ` or ` aT ` alike, lies at or before the one found |
| Arp.MatchAt | spawn_vm.py:103 | a match at a position is the address part there followed by the greedy case-insensitive tail |
| Arp.SearchFrom | spawn_vm.py:103 | `re.search` with `re.I` finds a match at or after the start |
| Arp.MatchAtIsGreedy | spawn_vm.py:103 | the tail matched is the last one that fits, in any letter case |
| Arp.SearchIsLeftmost | spawn_vm.py:103 | `re.search` takes the leftmost start where the pattern matches |
| Arp.Search | spawn_vm.py:103 | a match yields a 17-character MAC of the class `[0-9a-fA-F:]` and an ip of at least seven digits-or-dots |
| Arp.ArpLookupByMac | spawn_vm.py:99-106 | the loop with its early return gives the ip of the first matching line, or None |
| Arp.FirstHitIsFirst | spawn_vm.py:101-106 | the lookup is None iff no line matches, and otherwise the ip of the earliest line that matches |
| Arp.FirstHitAt | spawn_vm.py:101-106 | the first matching line decides the lookup |
| Arp.SearchArpLine | spawn_vm.py:102-103 | a line as `arp -an` prints it, `? (<ip>) at <mac> <rest>` with "at" in any case and no further " at " in the rest, matches with exactly that ip and mac |
| Arp.LookupFindsVm | spawn_vm.py:99-106 | when the VM's line is the first matching one, the lookup returns its ip, whatever the case of the MAC and of "at" printed |
| Arp.UpperCaseAtMatches | spawn_vm.py:103 | `? (10.0.0.5) AT 52:54:00:aa:bb:cc x` matches with ip 10.0.0.5 and that MAC, as under `re.I` |

## Left out

- Subprocesses are not executed: each program's exit status, output, presence on `PATH` and effect on files is an input of the model. This covers `subprocess.run`, `shutil.which`, `os.geteuid` and `Path.exists`.
- Wall-clock waits are left out: the 5-second pid-file wait of `launch_vm` is one boolean input, and the ARP discovery loop of `spawn_vm.py`'s `main` with its periodic sweeps is left out (time-driven).
- `light_ping_sweep`'s concurrent `Popen`, `sleep` and `poll` are left out. The model keeps only the commands started.
- `get_if_ip_netmask` is left out: it only runs `ipconfig`. Its results are the inputs of `LightPingSweep` and `CidrFromIpMask`.
- `random` and `random.seed(name)` cannot be modelled. The three drawn octets are parameters constrained to their ranges.
- Argument parsing and defaults, `Path.resolve`/`expanduser`, `mkdir` failures, file contents on disk, CSV quoting, the JSON and summary printing, and the diagnostic prints are left out. Paths are plain text in normal form, and `a / b` is `a + "/" + b` unless b is absolute. For a working directory of `/` this gives `//overlays` where `pathlib` gives `/overlays`, so the root as working directory is not modelled faithfully.
- The cloud-init meaning of the rendered YAML is left out. Only the placeholder substitution is modelled.
- `splitlines()` of the `arp` output is left out: `ArpLookupByMac` takes the lines.
- IPv6: `ip_address`/`ip_network` would also accept IPv6 text. The model accepts only IPv4 and treats IPv6 text as an error.
- Arp.LookupFindsVm: proved only for lines laid out as `arp -an` prints them (`? (<ip>) at <mac> <rest>`, "at" in any letter case), with a MAC of 17 characters of the class `[0-9a-fA-F:]`, and a rest with no " at " in any letter case. Other lines are covered only by the general `FirstHitIsFirst`.
- Arp.Search: `\d` is ASCII digits only. Python's `\d` also matches other Unicode decimal digits.
- Text.Lower: lowers ASCII letters only. Python's `str.lower()` also lowers other letters and can change the length (`'İ'.lower()` has two characters); the text it is applied to is MAC text, where the two agree.
- FleetWrites.Written: a builder command counts as a write once it is issued, whether or not the tool then succeeds, so `MainWritesOnlyWorkArea` bounds what the script may write.
- Text.IsSpace: the whitespace set is Python's `str.isspace` for the Basic Multilingual Plane. Characters beyond it are not treated as whitespace.
- Fleet.Provision: the files of the seed directory are a trace of writes, not a file system. The pid column is an input, and `hdiutil imageinfo` is an action without effect.
- The host's answers (the `Fleet.Host` record) are fixed per index when the run starts. A file created during the run is not seen as existing later in the run, which matches the script because every per-index path is distinct.

## Notes on the code

The repository's documentation describes a few behaviours differently from the code. The model follows the code:

- `build_seed_iso` does not try xorrisofs after mkisofs fails. A failing mkisofs that is on `PATH` raises at once (`IsoBuilder.MkisofsShadowsXorrisofs`), and xorrisofs runs only when mkisofs is not on `PATH`. A stale `tmp_out` that cannot be removed sends the build straight to the fallbacks. An `out_iso` with an empty name raises before the `try`.
- A failure for one instance is not tolerated: an exception anywhere in the loop ends `main`. No later instance runs and `instances.csv` is not written (`Fleet.FoldStopsAtFailure`, `Fleet.Epilogue`).
- `curr_ip += 1` runs at the head of every iteration, right after the instance's own address is taken. The instance whose address would be 255.255.255.255 therefore raises there, before its overlay, seed ISO or launch (`FleetProperties.LastAddressNeverLaunched`). VMs 1 to n-1 are already running, and `instances.csv` is not written because the loop did not complete (`Fleet.Epilogue`). A completed loop never incremented past the last address (`FleetProperties.StepsInRange`).
- Every instance is given the same `vars.fd` on its pflash drive.
- Nothing keeps the inputs out of the work area. A `--base-qcow2` of `seeds/seed-1.iso` that exists passes the check and is then written over by instance 1's seed-ISO build whenever that build succeeds, whichever tool it uses (`FleetWrites.BaseInSeedsIsOverwritten`). Inputs outside `overlays/`, `seeds/`, the pid files and `instances.csv` are never written by the script (`FleetWrites.MainLeavesInputsAlone`). QEMU itself writes the shared `vars.fd` through the pflash drive.
- The `-nic` option of `spawn_overlays.py` carries no MAC address. That of `spawn_vm.py` does.
- A count of 0 or less runs the loop zero times. There is no check.
- In `spawn_vm.py`, a name that starts with '/' replaces the overlays directory in `ensure_paths` (`SpawnVm.AbsoluteNameSharesOverlay`).
- In `spawn_overlays.py`, a `--name-prefix` that starts with '/' likewise replaces the working directory in the pid-file path, so `-pidfile` points outside it, e.g. `/etc/x-1.pid` (`FleetWrites.AbsolutePrefixPidFile`, `FleetWrites.PidFileEscapesWorkdir`).
