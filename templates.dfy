/** The cloud-init documents of spawn_overlays.py. A template is kept as
    its lines, each a sequence of literal text and named placeholders as
    str.format reads it; formatting substitutes a value for every
    placeholder, joins the lines with newlines, and raises KeyError (None
    here) when a placeholder has no value. The two extra configuration
    files are written verbatim, without formatting. */
module Templates {
  import opened Text
  import opened Wrappers

  datatype Field = Hostname | Iface | Ip | Prefix | Gateway | DnsList

  /** Literal text within one line: it holds no newline. */
  type LineText = s: string | '\n' !in s witness ""

  datatype Piece = Lit(text: LineText) | Hole(field: Field)

  /** One line of a template, without its newline. */
  type Line = seq<Piece>

  /** A whole template: its lines, in order. A template whose text ends in
      a newline has an empty last line. */
  type Template = seq<Line>

  /** The keyword arguments passed to str.format. */
  type Values = map<Field, string>

  // ---------------------------------------------------------------------
  // One line

  function FieldsOf(l: Line): (fs: set<Field>)
    ensures forall k :: 0 <= k < |l| && l[k].Hole? ==> l[k].field in fs
  {
    if l == [] then {}
    else (if l[0].Hole? then {l[0].field} else {}) + FieldsOf(l[1..])
  }

  /** The text of one line with every placeholder replaced by its value. */
  function RenderLine(l: Line, v: Values): (r: Option<string>)
    ensures r.Some? <==> FieldsOf(l) <= v.Keys
  {
    if l == [] then Some("")
    else
      var rest := RenderLine(l[1..], v);
      match l[0]
      case Lit(s) => if rest.Some? then Some(s + rest.value) else None
      case Hole(f) => if f in v && rest.Some? then Some(v[f] + rest.value) else None
  }

  lemma {:induction false} FieldsOfAppend(l1: Line, l2: Line)
    ensures FieldsOf(l1 + l2) == FieldsOf(l1) + FieldsOf(l2)
  {
    if l1 != [] {
      assert (l1 + l2)[0] == l1[0];
      assert (l1 + l2)[1..] == l1[1..] + l2;
      FieldsOfAppend(l1[1..], l2);
    } else {
      assert l1 + l2 == l2;
    }
  }

  /** Rendering a concatenation renders each part in turn. */
  lemma {:induction false} RenderAppend(l1: Line, l2: Line, v: Values)
    requires FieldsOf(l1) <= v.Keys && FieldsOf(l2) <= v.Keys
    ensures FieldsOf(l1 + l2) <= v.Keys
    ensures RenderLine(l1 + l2, v).value == RenderLine(l1, v).value + RenderLine(l2, v).value
  {
    FieldsOfAppend(l1, l2);
    if l1 != [] {
      assert (l1 + l2)[0] == l1[0];
      assert (l1 + l2)[1..] == l1[1..] + l2;
      FieldsOfAppend(l1[1..], l2);
      RenderAppend(l1[1..], l2, v);
    } else {
      assert l1 + l2 == l2;
    }
  }

  /** Each value lands where its placeholder stands: the rendered line is
      the rendering of everything before the placeholder, then the value,
      then the rendering of everything after it. */
  lemma HoleLands(l: Line, v: Values, k: nat)
    requires FieldsOf(l) <= v.Keys && k < |l| && l[k].Hole?
    ensures FieldsOf(l[..k]) <= v.Keys && FieldsOf(l[k + 1..]) <= v.Keys
    ensures RenderLine(l, v).value == RenderLine(l[..k], v).value + v[l[k].field] + RenderLine(l[k + 1..], v).value
  {
    PieceLands(l, v, k);
  }

  /** A line renders as the part before piece k, then piece k, then the
      part after it. */
  lemma PieceLands(l: Line, v: Values, k: nat)
    requires FieldsOf(l) <= v.Keys && k < |l|
    ensures FieldsOf(l[..k]) <= v.Keys && FieldsOf([l[k]]) <= v.Keys && FieldsOf(l[k + 1..]) <= v.Keys
    ensures RenderLine(l, v).value
         == RenderLine(l[..k], v).value + RenderLine([l[k]], v).value + RenderLine(l[k + 1..], v).value
  {
    var before, piece, after := l[..k], [l[k]], l[k + 1..];
    assert l == before + (piece + after);
    FieldsOfAppend(piece, after);
    FieldsOfAppend(before, piece + after);
    RenderAppend(piece, after, v);
    RenderAppend(before, piece + after, v);
  }

  /** Literal text is reproduced verbatim in the same way. */
  lemma LiteralLands(l: Line, v: Values, k: nat)
    requires FieldsOf(l) <= v.Keys && k < |l| && l[k].Lit?
    ensures FieldsOf(l[..k]) <= v.Keys && FieldsOf(l[k + 1..]) <= v.Keys
    ensures RenderLine(l, v).value == RenderLine(l[..k], v).value + l[k].text + RenderLine(l[k + 1..], v).value
  {
    PieceLands(l, v, k);
  }

  /** A line without placeholders renders the same whatever the values. */
  lemma {:induction false} FixedLine(l: Line, v: Values, w: Values)
    requires FieldsOf(l) == {}
    ensures RenderLine(l, v) == RenderLine(l, w)
  {
    if l != [] {
      FieldsOfAppend([l[0]], l[1..]);
      assert [l[0]] + l[1..] == l;
      FixedLine(l[1..], v, w);
    }
  }

  // ---------------------------------------------------------------------
  // A whole template

  function FieldsOfDoc(t: Template): (fs: set<Field>)
    ensures forall k :: 0 <= k < |t| ==> FieldsOf(t[k]) <= fs
  {
    if t == [] then {} else FieldsOf(t[0]) + FieldsOfDoc(t[1..])
  }

  /** Every line rendered, or None when some placeholder has no value. */
  function RenderLines(t: Template, v: Values): (r: Option<seq<string>>)
    ensures r.Some? <==> FieldsOfDoc(t) <= v.Keys
    ensures r.Some? ==> |r.value| == |t| && forall k :: 0 <= k < |t| ==> r.value[k] == RenderLine(t[k], v).value
  {
    if t == [] then Some([])
    else
      var first, rest := RenderLine(t[0], v), RenderLines(t[1..], v);
      if first.Some? && rest.Some? then Some([first.value] + rest.value) else None
  }

  /** template.format(**values) */
  function Format(t: Template, v: Values): (r: Option<string>)
    ensures r.Some? <==> FieldsOfDoc(t) <= v.Keys
  {
    var lines := RenderLines(t, v);
    if lines.Some? then Some(Join(lines.value, '\n')) else None
  }

  predicate ValuesAvoid(v: Values, c: char)
  {
    forall f :: f in v ==> c !in v[f]
  }

  /** A rendered line holds no newline when no value does. */
  lemma {:induction false} RenderAvoidsNewline(l: Line, v: Values)
    requires FieldsOf(l) <= v.Keys && ValuesAvoid(v, '\n')
    ensures '\n' !in RenderLine(l, v).value
  {
    if l != [] {
      FieldsOfAppend([l[0]], l[1..]);
      assert [l[0]] + l[1..] == l;
      RenderAvoidsNewline(l[1..], v);
    }
  }

  /** When no value holds a newline, the formatted document splits back
      into exactly the rendered lines. */
  lemma FormatLines(t: Template, v: Values)
    requires |t| >= 1 && FieldsOfDoc(t) <= v.Keys && ValuesAvoid(v, '\n')
    ensures Split(Format(t, v).value, '\n') == RenderLines(t, v).value
  {
    var lines := RenderLines(t, v).value;
    forall k | 0 <= k < |lines| ensures '\n' !in lines[k] {
      RenderAvoidsNewline(t[k], v);
    }
    SplitJoin(lines, '\n');
  }

  /** A template's placeholders are all supplied when every line renders. */
  lemma {:induction false} DocFieldsSupplied(t: Template, v: Values)
    requires forall k :: 0 <= k < |t| ==> RenderLine(t[k], v).Some?
    ensures FieldsOfDoc(t) <= v.Keys
  {
    if t != [] {
      assert forall k :: 0 <= k < |t[1..]| ==> t[1..][k] == t[k + 1];
      DocFieldsSupplied(t[1..], v);
    }
  }

  /** A template renders to the given lines when each of its lines does. */
  lemma {:induction false} RenderLinesOf(t: Template, v: Values, e: seq<string>)
    requires |t| == |e| && forall k :: 0 <= k < |t| ==> RenderLine(t[k], v) == Some(e[k])
    ensures RenderLines(t, v) == Some(e)
  {
    if t != [] {
      assert forall k :: 0 <= k < |t[1..]| ==> t[1..][k] == t[k + 1] && e[1..][k] == e[k + 1];
      RenderLinesOf(t[1..], v, e[1..]);
      RenderLinesCons(t, v, e);
    }
  }

  /** The step of RenderLinesOf. */
  lemma RenderLinesCons(t: Template, v: Values, e: seq<string>)
    requires |t| == |e| > 0 && RenderLine(t[0], v) == Some(e[0]) && RenderLines(t[1..], v) == Some(e[1..])
    ensures RenderLines(t, v) == Some(e)
  {
    assert e == [e[0]] + e[1..];
  }

  /** Rendering a template made of two parts renders each part in turn. */
  lemma RenderLinesAppend(t1: Template, t2: Template, v: Values)
    requires RenderLines(t1, v).Some? && RenderLines(t2, v).Some?
    ensures RenderLines(t1 + t2, v) == Some(RenderLines(t1, v).value + RenderLines(t2, v).value)
  {
    var r1, r2 := RenderLines(t1, v).value, RenderLines(t2, v).value;
    forall k | 0 <= k < |t1 + t2| ensures RenderLine((t1 + t2)[k], v) == Some((r1 + r2)[k]) {
      if k < |t1| {
        assert (t1 + t2)[k] == t1[k];
      } else {
        assert (t1 + t2)[k] == t2[k - |t1|];
      }
    }
    RenderLinesOf(t1 + t2, v, r1 + r2);
  }

  /** Lines of plain text, as template lines without placeholders. */
  function FixedLines(ls: seq<string>): (t: Template)
    requires forall k :: 0 <= k < |ls| ==> '\n' !in ls[k]
    ensures |t| == |ls| && forall k :: 0 <= k < |ls| ==> t[k] == [Lit(ls[k])]
  {
    seq(|ls|, k requires 0 <= k < |ls| => [Lit(ls[k])])
  }

  lemma {:induction false} FieldsOfDocAppend(t1: Template, t2: Template)
    ensures FieldsOfDoc(t1 + t2) == FieldsOfDoc(t1) + FieldsOfDoc(t2)
  {
    if t1 != [] {
      assert (t1 + t2)[0] == t1[0];
      assert (t1 + t2)[1..] == t1[1..] + t2;
      FieldsOfDocAppend(t1[1..], t2);
    } else {
      assert t1 + t2 == t2;
    }
  }

  lemma {:induction false} FixedLinesNoFields(ls: seq<string>)
    requires forall k :: 0 <= k < |ls| ==> '\n' !in ls[k]
    ensures FieldsOfDoc(FixedLines(ls)) == {}
  {
    if ls != [] {
      FixedLinesNoFields(ls[1..]);
      assert FixedLines(ls)[1..] == FixedLines(ls[1..]);
      assert FieldsOf([Lit(ls[0])]) == {};
    }
  }

  /** Lines without placeholders render as themselves. */
  lemma FixedLinesRender(ls: seq<string>, v: Values)
    requires forall k :: 0 <= k < |ls| ==> '\n' !in ls[k]
    ensures RenderLines(FixedLines(ls), v) == Some(ls)
  {
    forall k | 0 <= k < |ls| ensures RenderLine(FixedLines(ls)[k], v) == Some(ls[k]) {
      RenderFixedLine(FixedLines(ls)[k], v);
    }
    RenderLinesOf(FixedLines(ls), v, ls);
  }

  // ---------------------------------------------------------------------
  // The templates

  /** The lines of USER_DATA_TPL from the blank line after the fqdn line
      to the last runcmd entry before the echo; none holds a placeholder. */
  const UserDataBody: string :=
    "\n"
    + "ssh_pwauth: true\n"
    + "users:\n"
    + "  - name: gns3\n"
    + "    groups: [sudo]\n"
    + "    shell: /bin/bash\n"
    + "    sudo: 'ALL=(ALL) NOPASSWD:ALL'\n"
    + "    lock_passwd: false\n"
    + "    # You can add your key later if you want:\n"
    + "    # ssh_authorized_keys: [\"ssh-ed25519 AAAA... your_key_here\"]\n"
    + "\n"
    + "chpasswd:\n"
    + "  list: |\n"
    + "    gns3:gns3\n"
    + "  expire: false\n"
    + "\n"
    + "package_update: true\n"
    + "packages:\n"
    + "  - openssh-server\n"
    + "  - python3\n"
    + "  - python3-pip\n"
    + "  - git\n"
    + "  - ufw\n"
    + "  - qemu-guest-agent\n"
    + "\n"
    + "write_files:\n"
    + "  - path: /etc/ssh/sshd_config.d/99-cloud-ssh.conf\n"
    + "    owner: root:root\n"
    + "    permissions: '0644'\n"
    + "    content: |\n"
    + "      PasswordAuthentication yes\n"
    + "      PubkeyAuthentication yes\n"
    + "      PermitRootLogin no\n"
    + "      KbdInteractiveAuthentication no\n"
    + "      UsePAM yes\n"
    + "\n"
    + "runcmd:\n"
    + "  - systemctl enable --now qemu-guest-agent || true\n"
    + "  - systemctl enable --now ssh || systemctl enable --now sshd || true\n"
    + "  - ufw allow OpenSSH || ufw allow 22/tcp\n"
    + "  - yes | ufw enable || true"

  // Lines of USER_DATA_TPL that hold placeholders or open the document.
  const UserCloudConfig: Line := [Lit("#cloud-config")]
  const UserPreserveHostname: Line := [Lit("preserve_hostname: false")]
  const UserHostname: Line := [Lit("hostname: "), Hole(Hostname)]
  const UserFqdn: Line := [Lit("fqdn: "), Hole(Hostname), Lit(".local")]
  const UserEcho: Line :=
    [Lit("  - 'echo \"Static IP configured for "), Hole(Iface), Lit(" at "), Hole(Ip), Lit("/"), Hole(Prefix),
     Lit(" (gw "), Hole(Gateway), Lit(")\"'")]

  /** The first four lines of USER_DATA_TPL, which name the host. */
  const UserDataHead: Template := [UserCloudConfig, UserPreserveHostname, UserHostname, UserFqdn]

  /** The last runcmd entry, which echoes the static address, and the
      empty line after the final newline. */
  const UserDataTail: Template := [UserEcho, []]

  /** USER_DATA_TPL */
  const UserDataTpl: Template := UserDataHead + FixedLines(Split(UserDataBody, '\n')) + UserDataTail

  // Lines of NETWORK_CONFIG_TPL.
  const NetVersion: Line := [Lit("version: 2")]
  const NetEthernets: Line := [Lit("ethernets:")]
  const NetIface: Line := [Lit("  "), Hole(Iface), Lit(":")]
  const NetDhcp: Line := [Lit("    dhcp4: no")]
  const NetAddresses: Line := [Lit("    addresses:")]
  const NetAddress: Line := [Lit("      - "), Hole(Ip), Lit("/"), Hole(Prefix)]
  const NetGateway: Line := [Lit("    gateway4: "), Hole(Gateway)]
  const NetNameservers: Line := [Lit("    nameservers:")]
  const NetDns: Line := [Lit("      addresses: ["), Hole(DnsList), Lit("]")]

  /** NETWORK_CONFIG_TPL */
  const NetworkConfigTpl: Template :=
    [NetVersion, NetEthernets, NetIface, NetDhcp, NetAddresses, NetAddress, NetGateway, NetNameservers, NetDns, []]

  // Lines of META_DATA_TPL.
  const MetaInstanceId: Line := [Lit("instance-id: "), Hole(Hostname)]
  const MetaLocalHostname: Line := [Lit("local-hostname: "), Hole(Hostname)]

  /** META_DATA_TPL */
  const MetaDataTpl: Template := [MetaInstanceId, MetaLocalHostname, []]

  /** DISABLE_NET_CFG, written as it stands (its braces are not placeholders). */
  const DisableNetCfg: string :=
    "# Prevent cloud-init from trying to (re)manage network after we set netplan\n"
    + "network: {config: disabled}\n"

  /** CLOUD_CFG_EXTRA, written as it stands. */
  const CloudCfgExtra: string :=
    "# Extra cloud-init config placeholder (keep if you want to add future toggles)\n"
    + "cloud_final_modules:\n"
    + " - [scripts-per-once, always]\n"
    + "\n"
    + "network:\n"
    + "  config: disabled\n"

  // ---------------------------------------------------------------------
  // The three formatted documents

  function UserDataValues(hostname: string, iface: string, ip: string, prefix: string, gateway: string): (v: Values)
    ensures v.Keys == {Hostname, Iface, Ip, Prefix, Gateway}
    ensures v[Hostname] == hostname && v[Iface] == iface && v[Ip] == ip && v[Prefix] == prefix && v[Gateway] == gateway
  {
    map[Hostname := hostname, Iface := iface, Ip := ip, Prefix := prefix, Gateway := gateway]
  }

  lemma NetworkConfigValuesAvoid(iface: string, ip: string, prefix: string, gateway: string, dnsList: string, c: char)
    requires c !in iface && c !in ip && c !in prefix && c !in gateway && c !in dnsList
    ensures ValuesAvoid(NetworkConfigValues(iface, ip, prefix, gateway, dnsList), c)
  {
    var v := NetworkConfigValues(iface, ip, prefix, gateway, dnsList);
    forall f | f in v ensures c !in v[f] {
      match f
      case Iface => assert v[f] == iface;
      case Ip => assert v[f] == ip;
      case Prefix => assert v[f] == prefix;
      case Gateway => assert v[f] == gateway;
      case DnsList => assert v[f] == dnsList;
    }
  }

  function NetworkConfigValues(iface: string, ip: string, prefix: string, gateway: string, dnsList: string): (v: Values)
    ensures v.Keys == {Iface, Ip, Prefix, Gateway, DnsList}
    ensures v[Iface] == iface && v[Ip] == ip && v[Prefix] == prefix && v[Gateway] == gateway && v[DnsList] == dnsList
  {
    map[Iface := iface, Ip := ip, Prefix := prefix, Gateway := gateway, DnsList := dnsList]
  }

  /** USER_DATA_TPL.format(hostname=..., iface=..., ip=..., prefix=..., gateway=...):
      every placeholder it uses is supplied, so it never raises. */
  function UserData(hostname: string, iface: string, ip: string, prefix: string, gateway: string): string
  {
    var v := UserDataValues(hostname, iface, ip, prefix, gateway);
    UserDataFieldsSupplied(v);
    Format(UserDataTpl, v).value
  }

  /** NETWORK_CONFIG_TPL.format(iface=..., ip=..., prefix=..., gateway=..., dns_list=...) */
  function NetworkConfig(iface: string, ip: string, prefix: string, gateway: string, dnsList: string): string
  {
    var v := NetworkConfigValues(iface, ip, prefix, gateway, dnsList);
    NetworkConfigFieldsSupplied(v);
    Format(NetworkConfigTpl, v).value
  }

  /** META_DATA_TPL.format(hostname=...) */
  function MetaData(hostname: string): string
  {
    var v := map[Hostname := hostname];
    MetaDataFieldsSupplied(v);
    Format(MetaDataTpl, v).value
  }

  lemma UserDataFieldsSupplied(v: Values)
    requires v.Keys == {Hostname, Iface, Ip, Prefix, Gateway}
    ensures FieldsOfDoc(UserDataTpl) <= v.Keys
  {
    var body := FixedLines(Split(UserDataBody, '\n'));
    UserDataHeadRendered(v);
    UserDataTailRendered(v);
    FixedLinesNoFields(Split(UserDataBody, '\n'));
    FieldsOfDocAppend(UserDataHead, body);
    FieldsOfDocAppend(UserDataHead + body, UserDataTail);
  }

  lemma NetworkConfigFieldsSupplied(v: Values)
    requires v.Keys == {Iface, Ip, Prefix, Gateway, DnsList}
    ensures FieldsOfDoc(NetworkConfigTpl) <= v.Keys
  {
    forall k | 0 <= k < |NetworkConfigTpl| ensures RenderLine(NetworkConfigTpl[k], v).Some? {
      NetworkConfigLineRenders(v, k);
    }
    DocFieldsSupplied(NetworkConfigTpl, v);
  }

  lemma MetaDataFieldsSupplied(v: Values)
    requires v.Keys == {Hostname}
    ensures FieldsOfDoc(MetaDataTpl) <= v.Keys
  {
    RenderLitHole(MetaInstanceId, v);
    RenderLitHole(MetaLocalHostname, v);
    DocFieldsSupplied(MetaDataTpl, v);
  }

  // ---------------------------------------------------------------------
  // Rendering lines of a given shape

  lemma RenderFixedLine(l: Line, v: Values)
    requires |l| == 1 && l[0].Lit?
    ensures RenderLine(l, v) == Some(l[0].text)
  {
    assert l[1..] == [];
    assert l[0].text + "" == l[0].text;
  }

  lemma RenderLitHole(l: Line, v: Values)
    requires |l| == 2 && l[0].Lit? && l[1].Hole? && l[1].field in v
    ensures RenderLine(l, v) == Some(l[0].text + v[l[1].field])
  {
    assert l[1..][0] == l[1] && l[1..][1..] == [];
    assert RenderLine(l[1..], v) == Some(v[l[1].field] + "");
    assert v[l[1].field] + "" == v[l[1].field];
  }

  lemma RenderLitHoleLit(l: Line, v: Values)
    requires |l| == 3 && l[0].Lit? && l[1].Hole? && l[2].Lit? && l[1].field in v
    ensures RenderLine(l, v) == Some(l[0].text + v[l[1].field] + l[2].text)
  {
    assert l[1..][1..][1..] == [];
    RenderFixedLine(l[1..][1..], v);
    assert l[0].text + (v[l[1].field] + l[2].text) == l[0].text + v[l[1].field] + l[2].text;
  }

  lemma RenderLitHoleLitHole(l: Line, v: Values)
    requires |l| == 4 && l[0].Lit? && l[1].Hole? && l[2].Lit? && l[3].Hole?
    requires l[1].field in v && l[3].field in v
    ensures RenderLine(l, v) == Some(l[0].text + v[l[1].field] + l[2].text + v[l[3].field])
  {
    RenderLitHole(l[1..][1..], v);
    var a, x, b, y := l[0].text, v[l[1].field], l[2].text, v[l[3].field];
    assert a + (x + (b + y)) == a + x + b + y;
  }

  // ---------------------------------------------------------------------
  // What the documents say, line by line

  /** meta-data: the instance id and the local host name are the hostname. */
  lemma MetaDataRendered(hostname: string)
    ensures RenderLines(MetaDataTpl, map[Hostname := hostname])
         == Some(["instance-id: " + hostname, "local-hostname: " + hostname, ""])
  {
    var v := map[Hostname := hostname];
    RenderLitHole(MetaInstanceId, v);
    RenderLitHole(MetaLocalHostname, v);
    assert RenderLine([], v) == Some("");
    RenderLinesOf(MetaDataTpl, v, ["instance-id: " + hostname, "local-hostname: " + hostname, ""]);
  }

  /** The meta-data document names the instance twice and ends its last line. */
  lemma MetaDataLines(hostname: string)
    requires '\n' !in hostname
    ensures Split(MetaData(hostname), '\n') == ["instance-id: " + hostname, "local-hostname: " + hostname, ""]
  {
    var v := map[Hostname := hostname];
    MetaDataRendered(hostname);
    MetaDataFieldsSupplied(v);
    FormatLines(MetaDataTpl, v);
  }

  function NetworkConfigText(iface: string, ip: string, prefix: string, gateway: string, dnsList: string): seq<string>
  {
    ["version: 2",
     "ethernets:",
     "  " + iface + ":",
     "    dhcp4: no",
     "    addresses:",
     "      - " + ip + "/" + prefix,
     "    gateway4: " + gateway,
     "    nameservers:",
     "      addresses: [" + dnsList + "]",
     ""]
  }

  lemma NetworkConfigLineRendered(iface: string, ip: string, prefix: string, gateway: string, dnsList: string, k: nat)
    requires k < 10
    ensures RenderLine(NetworkConfigTpl[k], NetworkConfigValues(iface, ip, prefix, gateway, dnsList))
         == Some(NetworkConfigText(iface, ip, prefix, gateway, dnsList)[k])
  {
    var v := NetworkConfigValues(iface, ip, prefix, gateway, dnsList);
    var l := NetworkConfigTpl[k];
    if k == 2 {
      RenderLitHoleLit(l, v);
    } else if k == 5 {
      RenderLitHoleLitHole(l, v);
    } else if k == 6 {
      RenderLitHole(l, v);
    } else if k == 8 {
      RenderLitHoleLit(l, v);
    } else if k < 9 {
      RenderFixedLine(l, v);
    }
  }

  lemma NetworkConfigLineRenders(v: Values, k: nat)
    requires v.Keys == {Iface, Ip, Prefix, Gateway, DnsList} && k < 10
    ensures RenderLine(NetworkConfigTpl[k], v).Some?
  {
    var l := NetworkConfigTpl[k];
    if k == 2 {
      RenderLitHoleLit(l, v);
    } else if k == 5 {
      RenderLitHoleLitHole(l, v);
    } else if k == 6 {
      RenderLitHole(l, v);
    } else if k == 8 {
      RenderLitHoleLit(l, v);
    } else if k < 9 {
      RenderFixedLine(l, v);
    }
  }

  lemma NetworkConfigRendered(iface: string, ip: string, prefix: string, gateway: string, dnsList: string)
    ensures RenderLines(NetworkConfigTpl, NetworkConfigValues(iface, ip, prefix, gateway, dnsList))
         == Some(NetworkConfigText(iface, ip, prefix, gateway, dnsList))
  {
    var v := NetworkConfigValues(iface, ip, prefix, gateway, dnsList);
    var e := NetworkConfigText(iface, ip, prefix, gateway, dnsList);
    forall k | 0 <= k < 10 ensures RenderLine(NetworkConfigTpl[k], v) == Some(e[k]) {
      NetworkConfigLineRendered(iface, ip, prefix, gateway, dnsList, k);
    }
    RenderLinesOf(NetworkConfigTpl, v, e);
  }

  /** The network configuration is ten lines: a static address with its
      prefix, the gateway and the name servers for one interface, with DHCP
      off. */
  lemma NetworkConfigLines(iface: string, ip: string, prefix: string, gateway: string, dnsList: string)
    requires '\n' !in iface && '\n' !in ip && '\n' !in prefix && '\n' !in gateway && '\n' !in dnsList
    ensures Split(NetworkConfig(iface, ip, prefix, gateway, dnsList), '\n')
         == NetworkConfigText(iface, ip, prefix, gateway, dnsList)
  {
    NetworkConfigRendered(iface, ip, prefix, gateway, dnsList);
    NetworkConfigValuesAvoid(iface, ip, prefix, gateway, dnsList, '\n');
    NetworkConfigFieldsSupplied(NetworkConfigValues(iface, ip, prefix, gateway, dnsList));
    FormatLines(NetworkConfigTpl, NetworkConfigValues(iface, ip, prefix, gateway, dnsList));
  }

  lemma UserDataValuesAvoid(hostname: string, iface: string, ip: string, prefix: string, gateway: string, c: char)
    requires c !in hostname && c !in iface && c !in ip && c !in prefix && c !in gateway
    ensures ValuesAvoid(UserDataValues(hostname, iface, ip, prefix, gateway), c)
  {
    var v := UserDataValues(hostname, iface, ip, prefix, gateway);
    forall f | f in v ensures c !in v[f] {
      match f
      case Hostname => assert v[f] == hostname;
      case Iface => assert v[f] == iface;
      case Ip => assert v[f] == ip;
      case Prefix => assert v[f] == prefix;
      case Gateway => assert v[f] == gateway;
    }
  }

  /** The runcmd entry that reports the interface, address, prefix and gateway. */
  lemma UserEchoRendered(v: Values)
    requires Iface in v && Ip in v && Prefix in v && Gateway in v
    ensures RenderLine(UserEcho, v)
         == Some("  - 'echo \"Static IP configured for " + v[Iface] + " at " + v[Ip] + "/" + v[Prefix]
                 + " (gw " + v[Gateway] + ")\"'")
  {
    var l := UserEcho;
    assert l == l[..4] + (l[4..8] + l[8..]);
    RenderLitHoleLitHole(l[..4], v);
    RenderLitHoleLitHole(l[4..8], v);
    RenderFixedLine(l[8..], v);
    RenderAppend(l[4..8], l[8..], v);
    RenderAppend(l[..4], l[4..8] + l[8..], v);
    var a := "  - 'echo \"Static IP configured for " + v[Iface] + " at " + v[Ip];
    var b := "/" + v[Prefix] + " (gw " + v[Gateway];
    var c := ")\"'";
    assert RenderLine(l[..4], v).value == a;
    assert RenderLine(l[4..8], v).value == b;
    assert RenderLine(l[8..], v).value == c;
    assert a + (b + c) == a + b + c;
    var x := a + "/";
    assert a + b == x + v[Prefix] + " (gw " + v[Gateway];
    assert a + b + c
        == "  - 'echo \"Static IP configured for " + v[Iface] + " at " + v[Ip] + "/" + v[Prefix]
           + " (gw " + v[Gateway] + ")\"'";
  }

  function UserDataHeadText(hostname: string): seq<string>
  {
    ["#cloud-config", "preserve_hostname: false", "hostname: " + hostname, "fqdn: " + hostname + ".local"]
  }

  function UserDataTailText(iface: string, ip: string, prefix: string, gateway: string): seq<string>
  {
    ["  - 'echo \"Static IP configured for " + iface + " at " + ip + "/" + prefix + " (gw " + gateway + ")\"'", ""]
  }

  /** The four opening lines of user-data: the cloud-config marker, and the
      host name and fully qualified name, both taken from the hostname. */
  lemma UserDataHeadRendered(v: Values)
    requires Hostname in v
    ensures RenderLines(UserDataHead, v) == Some(UserDataHeadText(v[Hostname]))
  {
    RenderFixedLine(UserCloudConfig, v);
    RenderFixedLine(UserPreserveHostname, v);
    RenderLitHole(UserHostname, v);
    RenderLitHoleLit(UserFqdn, v);
    RenderLinesOf(UserDataHead, v, UserDataHeadText(v[Hostname]));
  }

  lemma UserDataTailRendered(v: Values)
    requires Iface in v && Ip in v && Prefix in v && Gateway in v
    ensures RenderLines(UserDataTail, v) == Some(UserDataTailText(v[Iface], v[Ip], v[Prefix], v[Gateway]))
  {
    UserEchoRendered(v);
    assert RenderLine([], v) == Some("");
    RenderLinesOf(UserDataTail, v, UserDataTailText(v[Iface], v[Ip], v[Prefix], v[Gateway]));
  }

  /** The lines of user-data: the head naming the host, the fixed body,
      and the tail reporting the static address. */
  function UserDataText(hostname: string, iface: string, ip: string, prefix: string, gateway: string): seq<string>
  {
    UserDataHeadText(hostname) + Split(UserDataBody, '\n') + UserDataTailText(iface, ip, prefix, gateway)
  }

  lemma UserDataRendered(v: Values)
    requires Hostname in v && Iface in v && Ip in v && Prefix in v && Gateway in v
    ensures RenderLines(UserDataTpl, v)
         == Some(UserDataHeadText(v[Hostname]) + Split(UserDataBody, '\n') + UserDataTailText(v[Iface], v[Ip], v[Prefix], v[Gateway]))
  {
    var body := Split(UserDataBody, '\n');
    UserDataHeadRendered(v);
    UserDataTailRendered(v);
    FixedLinesRender(body, v);
    RenderLinesAppend(UserDataHead, FixedLines(body), v);
    RenderLinesAppend(UserDataHead + FixedLines(body), UserDataTail, v);
  }

  /** The user-data document names the host in its third and fourth lines,
      carries the fixed body unchanged, and ends with the runcmd entry that
      echoes the interface, address, prefix and gateway. */
  lemma UserDataLines(hostname: string, iface: string, ip: string, prefix: string, gateway: string)
    requires '\n' !in hostname && '\n' !in iface && '\n' !in ip && '\n' !in prefix && '\n' !in gateway
    ensures Split(UserData(hostname, iface, ip, prefix, gateway), '\n') == UserDataText(hostname, iface, ip, prefix, gateway)
  {
    var v := UserDataValues(hostname, iface, ip, prefix, gateway);
    UserDataRendered(v);
    UserDataValuesAvoid(hostname, iface, ip, prefix, gateway, '\n');
    UserDataFieldsSupplied(v);
    FormatLines(UserDataTpl, v);
  }
}
