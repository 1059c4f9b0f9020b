// arp_lookup_by_mac (spawn_vm.py): the first line of `arp -an` output whose
// hardware-address field is the VM's MAC gives the VM's IP address.
//
// The line pattern is the regular expression
//   \((?P<ip>\d+\.\d+\.\d+\.\d+)\).* at (?P<mac>[0-9a-f:]{17})
// (with a trailing space) searched with re.search and re.I. Its semantics
// are written out over positions: re.search takes the leftmost start where
// the whole pattern matches; each \d+ is followed by a non-digit, so it can
// only match the maximal run of digits; the greedy .* (which does not cross
// a newline) takes the rightmost tail that fits.

module Arp {
  import opened Wrappers
  import opened Text

  // ---------------------------------------------------------------------
  // \(\d+\.\d+\.\d+\.\d+\)
  //
  // Everything below works on positions in the whole line, so that a
  // match is described by where its parts start and end.

  /** The length of the run of ASCII digits at s[i..]. */
  function DigitsFrom(s: string, i: nat): (n: nat)
    requires i <= |s|
    ensures i + n <= |s|
    decreases |s| - i
  {
    if i < |s| && IsDigit(s[i]) then 1 + DigitsFrom(s, i + 1) else 0
  }

  /** DigitsFrom is the maximal run: digits up to it, then a non-digit. */
  lemma {:induction false} DigitsFromSpec(s: string, i: nat)
    requires i <= |s|
    ensures forall k :: i <= k < i + DigitsFrom(s, i) ==> IsDigit(s[k])
    ensures i + DigitsFrom(s, i) == |s| || !IsDigit(s[i + DigitsFrom(s, i)])
    decreases |s| - i
  {
    if i < |s| && IsDigit(s[i]) {
      DigitsFromSpec(s, i + 1);
    }
  }

  /** A run of m digits followed by a non-digit is the run DigitsFrom
      finds: \d+ followed by '.' or ')' has one way to match. */
  lemma {:induction false} DigitsFromMaximal(s: string, i: nat, m: nat)
    requires i + m <= |s|
    requires forall k :: i <= k < i + m ==> IsDigit(s[k])
    requires i + m == |s| || !IsDigit(s[i + m])
    ensures DigitsFrom(s, i) == m
    decreases m
  {
    if m > 0 {
      DigitsFromMaximal(s, i + 1, m - 1);
    }
  }

  /** \d+ followed by c at s[i..]: the position of c. */
  function GroupAt(s: string, i: nat, c: char): (r: Option<nat>)
    requires i <= |s|
    ensures r.Some? ==> i + 1 <= r.value < |s| && s[r.value] == c
  {
    var n := DigitsFrom(s, i);
    if n >= 1 && i + n < |s| && s[i + n] == c then Some(i + n) else None
  }

  /** GroupAt finds g exactly when s[i..g] is a non-empty run of digits and
      s[g] is the (non-digit) delimiter. */
  lemma GroupAtSpec(s: string, i: nat, c: char, g: nat)
    requires i <= |s| && !IsDigit(c)
    ensures GroupAt(s, i, c) == Some(g) <==>
              i < g < |s| && s[g] == c && forall k :: i <= k < g ==> IsDigit(s[k])
  {
    DigitsFromSpec(s, i);
    if i < g < |s| && s[g] == c && forall k :: i <= k < g ==> IsDigit(s[k]) {
      DigitsFromMaximal(s, i, g - i);
    }
  }

  predicate IsQuadChar(c: char) { IsDigit(c) || c == '.' }

  /** n + 1 runs of digits separated by '.' and followed by ')' at s[i..]
      (n = 3 is \d+\.\d+\.\d+\.\d+\)): the position of the ')'. */
  function FieldsAt(s: string, i: nat, n: nat): (r: Option<nat>)
    requires i <= |s|
    ensures r.Some? ==> i + 2 * n + 1 <= r.value < |s| && s[r.value] == ')'
    decreases n
  {
    if n == 0 then GroupAt(s, i, ')')
    else
      match GroupAt(s, i, '.')
      case None => None
      case Some(g) => FieldsAt(s, g + 1, n - 1)
  }

  /** What FieldsAt recognises is made of digits and dots. */
  lemma {:induction false} FieldsChars(s: string, i: nat, n: nat)
    requires i <= |s| && FieldsAt(s, i, n).Some?
    ensures forall k :: i <= k < FieldsAt(s, i, n).value ==> IsQuadChar(s[k])
    decreases n
  {
    var c := if n == 0 then ')' else '.';
    var g := GroupAt(s, i, c).value;
    GroupAtSpec(s, i, c, g);
    if n > 0 {
      FieldsChars(s, g + 1, n - 1);
    }
  }

  /** The number of dots in an address. */
  const Dots: nat := 3

  /** \(\d+\.\d+\.\d+\.\d+\) at s[i..]: the position of the ')'. */
  function IpAt(s: string, i: nat): (r: Option<nat>)
    requires i <= |s|
    ensures r.Some? ==> i + 8 <= r.value < |s| && s[i] == '(' && s[r.value] == ')'
  {
    if i < |s| && s[i] == '(' then FieldsAt(s, i + 1, Dots) else None
  }

  // ---------------------------------------------------------------------
  // .* at (?P<mac>[0-9a-f:]{17}) with re.I

  /** [0-9a-f:] under re.I. */
  predicate IsMacClass(c: char)
  {
    IsDigit(c) || 'a' <= c <= 'f' || 'A' <= c <= 'F' || c == ':'
  }

  /** The word "at" under re.I: each letter in either case. */
  predicate AtWord(w: string)
  {
    |w| == 2 && (w[0] == 'a' || w[0] == 'A') && (w[1] == 't' || w[1] == 'T')
  }

  /** " at " at t[p], in any letter case (re.I; no other character folds
      to 'a' or 't'). */
  predicate AtAt(t: string, p: nat)
  {
    && p + 4 <= |t| && t[p] == ' ' && t[p + 3] == ' '
    && (t[p + 1] == 'a' || t[p + 1] == 'A') && (t[p + 2] == 't' || t[p + 2] == 'T')
  }

  /** " at " + 17 characters of the class + " " at t[p]. */
  predicate TailAt(t: string, p: nat)
  {
    && p + 22 <= |t|
    && AtAt(t, p)
    && (forall k :: p + 4 <= k < p + 21 ==> IsMacClass(t[k]))
    && t[p + 21] == ' '
  }

  /** With the ')' just before `from`, .* can cover t[from..p] and the tail
      matches at t[p]. */
  predicate TailFits(t: string, from: nat, p: nat)
  {
    from <= p && TailAt(t, p) && forall k :: from <= k < p ==> t[k] != '\n'
  }

  /** The rightmost tail in t[lo..p + 1]. */
  function LastTail(t: string, lo: nat, p: int): (r: Option<nat>)
    requires p < |t|
    ensures r.Some? ==> lo <= r.value <= p && TailAt(t, r.value)
    decreases p + 1 - lo
  {
    if p < lo then None
    else if TailAt(t, p) then Some(p)
    else LastTail(t, lo, p - 1)
  }

  /** No tail in t[lo..p + 1] lies beyond the one LastTail finds. */
  lemma {:induction false} LastTailIsLast(t: string, lo: nat, p: int, q: nat)
    requires p < |t| && lo <= q <= p && TailAt(t, q)
    ensures LastTail(t, lo, p).Some? && q <= LastTail(t, lo, p).value
    decreases p + 1 - lo
  {
    if q < p && !TailAt(t, p) {
      LastTailIsLast(t, lo, p - 1, q);
    }
  }

  /** The position of the first newline in t[from..], or |t|. */
  function FirstNewline(t: string, from: nat): (n: nat)
    requires from <= |t|
    ensures from <= n <= |t|
    decreases |t| - from
  {
    if from == |t| || t[from] == '\n' then from else FirstNewline(t, from + 1)
  }

  /** FirstNewline stops at the first newline, or at the end. */
  lemma {:induction false} FirstNewlineSpec(t: string, from: nat)
    requires from <= |t|
    ensures forall k :: from <= k < FirstNewline(t, from) ==> t[k] != '\n'
    ensures FirstNewline(t, from) == |t| || t[FirstNewline(t, from)] == '\n'
    decreases |t| - from
  {
    if from < |t| && t[from] != '\n' {
      FirstNewlineSpec(t, from + 1);
    }
  }

  /** The tail the greedy .* after t[from - 1] settles on. */
  function Tail(t: string, from: nat): (r: Option<nat>)
    requires from <= |t|
    ensures r.Some? ==> from <= r.value && r.value + 22 <= |t|
  {
    LastTail(t, from, FirstNewline(t, from) - 1)
  }

  /** The tail Tail finds fits. */
  lemma TailFound(t: string, from: nat)
    requires from <= |t| && Tail(t, from).Some?
    ensures TailFits(t, from, Tail(t, from).value)
  {
    FirstNewlineSpec(t, from);
  }

  /** Every tail that fits lies at or before the one Tail finds: the greedy
      .* takes the last. */
  lemma TailIsLast(t: string, from: nat, q: nat)
    requires from <= |t| && TailFits(t, from, q)
    ensures Tail(t, from).Some? && q <= Tail(t, from).value
  {
    FirstNewlineSpec(t, from);
    LastTailIsLast(t, from, FirstNewline(t, from) - 1, q);
  }

  // ---------------------------------------------------------------------
  // re.search

  /** A match: the positions in the line of its '(', its ')' and its
      " at ". */
  datatype Found = Found(start: nat, close: nat, tail: nat)

  /** The match that starts at line[i], if any. */
  function MatchAt(line: string, i: nat): (r: Option<Found>)
    requires i <= |line|
    ensures r.Some? ==> r.value.start == i < |line| && IpAt(line, i) == Some(r.value.close)
    ensures r.Some? ==> Tail(line, r.value.close + 1) == Some(r.value.tail)
  {
    match IpAt(line, i)
    case None => None
    case Some(e) =>
      match Tail(line, e + 1)
      case None => None
      case Some(p) => Some(Found(i, e, p))
  }

  /** The leftmost start at or after i where the pattern matches. */
  function SearchFrom(line: string, i: nat): (r: Option<Found>)
    requires i <= |line|
    ensures r.Some? ==> i <= r.value.start < |line| && MatchAt(line, r.value.start) == r
    decreases |line| - i
  {
    if i == |line| then None
    else if MatchAt(line, i).Some? then MatchAt(line, i)
    else SearchFrom(line, i + 1)
  }

  /** A match starts at line[s] whenever the address part matches there and
      a tail fits after it, and its tail is the last one that fits. */
  lemma MatchAtIsGreedy(line: string, s: nat, q: nat)
    requires s <= |line| && IpAt(line, s).Some?
    requires TailFits(line, IpAt(line, s).value + 1, q)
    ensures MatchAt(line, s).Some? && q <= MatchAt(line, s).value.tail
  {
    TailIsLast(line, IpAt(line, s).value + 1, q);
  }

  /** No match starts before the one SearchFrom finds. */
  lemma {:induction false} SearchIsLeftmost(line: string, i: nat, s: nat)
    requires i <= s <= |line| && MatchAt(line, s).Some?
    ensures SearchFrom(line, i).Some? && SearchFrom(line, i).value.start <= s
    decreases s - i
  {
    if MatchAt(line, i).None? {
      SearchIsLeftmost(line, i + 1, s);
    }
  }

  /** re.search(pattern, line, re.I): the ip and mac groups of the match. */
  datatype Groups = Groups(ip: string, mac: string)

  function Search(line: string): (r: Option<Groups>)
    ensures r.Some? ==> |r.value.mac| == 17 && forall k :: 0 <= k < 17 ==> IsMacClass(r.value.mac[k])
    ensures r.Some? ==> 7 <= |r.value.ip| && forall k :: 0 <= k < |r.value.ip| ==> IsQuadChar(r.value.ip[k])
  {
    match SearchFrom(line, 0)
    case None => None
    case Some(f) =>
      FieldsChars(line, f.start + 1, Dots);
      TailFound(line, f.close + 1);
      Some(Groups(line[f.start + 1..f.close], line[f.tail + 4..f.tail + 21]))
  }

  // ---------------------------------------------------------------------
  // arp_lookup_by_mac

  /** The ip group of a line whose mac group, lower-cased, is the target. */
  function LineHit(line: string, macLower: string): Option<string>
  {
    match Search(line)
    case Some(g) => if Lower(g.mac) == macLower then Some(g.ip) else None
    case None => None
  }

  /** The ip of the first line from lines[i] on that hits, None when none
      does. */
  function FirstHitFrom(lines: seq<string>, i: nat, macLower: string): Option<string>
    requires i <= |lines|
    decreases |lines| - i
  {
    if i == |lines| then None
    else match LineHit(lines[i], macLower)
      case Some(ip) => Some(ip)
      case None => FirstHitFrom(lines, i + 1, macLower)
  }

  /** The ip of the first line that hits, None when none does. */
  function FirstHit(lines: seq<string>, macLower: string): Option<string>
  {
    FirstHitFrom(lines, 0, macLower)
  }

  /** arp_lookup_by_mac over the lines of `arp -an` (the command itself and
      splitlines are not modelled): the loop returns at the first hit. */
  method ArpLookupByMac(lines: seq<string>, macLower: string) returns (r: Option<string>)
    ensures r == FirstHit(lines, macLower)
  {
    var k := 0;
    while k < |lines|
      invariant 0 <= k <= |lines|
      invariant FirstHit(lines, macLower) == FirstHitFrom(lines, k, macLower)
    {
      var hit := LineHit(lines[k], macLower);
      if hit.Some? {
        return hit;
      }
      k := k + 1;
    }
    return None;
  }

  /** FirstHitFrom returns the ip of the earliest line that hits, and None
      exactly when no line does. */
  lemma {:induction false} FirstHitIsFirst(lines: seq<string>, i: nat, macLower: string)
    requires i <= |lines|
    ensures FirstHitFrom(lines, i, macLower).None? <==>
              forall k :: i <= k < |lines| ==> LineHit(lines[k], macLower).None?
    ensures FirstHitFrom(lines, i, macLower).Some? ==>
              exists k :: i <= k < |lines| && LineHit(lines[k], macLower) == FirstHitFrom(lines, i, macLower)
                       && forall j :: i <= j < k ==> LineHit(lines[j], macLower).None?
    decreases |lines| - i
  {
    if i < |lines| && LineHit(lines[i], macLower).None? {
      FirstHitIsFirst(lines, i + 1, macLower);
      if FirstHitFrom(lines, i, macLower).Some? {
        var k :| i + 1 <= k < |lines| && LineHit(lines[k], macLower) == FirstHitFrom(lines, i + 1, macLower)
                 && forall j :: i + 1 <= j < k ==> LineHit(lines[j], macLower).None?;
        assert forall j :: i <= j < k ==> LineHit(lines[j], macLower).None?;
      }
    }
  }

  // ---------------------------------------------------------------------
  // The lines arp -an prints

  /** No " at ", in any letter case, anywhere in t. */
  predicate NoAt(t: string)
  {
    forall p :: 0 <= p < |t| ==> !AtAt(t, p)
  }

  /** s[a..b] is a non-empty run of ASCII digits. */
  predicate RunAt(s: string, a: nat, b: nat)
  {
    a < b <= |s| && forall k :: a <= k < b ==> IsDigit(s[k])
  }

  /** A run of digits followed by c is recognised as a group. */
  lemma GroupAtRun(s: string, a: nat, b: nat, c: char)
    requires RunAt(s, a, b) && b < |s| && s[b] == c && !IsDigit(c)
    ensures GroupAt(s, a, c) == Some(b)
  {
    GroupAtSpec(s, a, c, b);
  }

  /** One more '.'-terminated group in front of n - 1 groups makes n. */
  lemma FieldsStep(s: string, i: nat, n: nat, g: nat, m: nat)
    requires i <= |s| && n >= 1 && GroupAt(s, i, '.') == Some(g)
    requires FieldsAt(s, g + 1, n - 1) == Some(m)
    ensures FieldsAt(s, i, n) == Some(m)
  {
  }

  /** s[i] is '(' and four runs of digits follow, ending at the dots g0,
      g1, g2 and at the ')' e. */
  predicate QuadAt(s: string, i: nat, g0: nat, g1: nat, g2: nat, e: nat)
  {
    && i < g0 < g1 < g2 < e < |s| && s[i] == '('
    && RunAt(s, i + 1, g0) && s[g0] == '.'
    && RunAt(s, g0 + 1, g1) && s[g1] == '.'
    && RunAt(s, g1 + 1, g2) && s[g2] == '.'
    && RunAt(s, g2 + 1, e) && s[e] == ')'
  }

  /** Four runs of digits between '(' and ')', separated by dots, are
      recognised as the address part. */
  lemma IpAtQuadAt(s: string, i: nat, g0: nat, g1: nat, g2: nat, e: nat)
    requires QuadAt(s, i, g0, g1, g2, e)
    ensures IpAt(s, i) == Some(e)
  {
    GroupAtRun(s, g2 + 1, e, ')');
    GroupAtRun(s, g1 + 1, g2, '.');
    FieldsStep(s, g1 + 1, 1, g2, e);
    GroupAtRun(s, g0 + 1, g1, '.');
    FieldsStep(s, g0 + 1, 2, g1, e);
    GroupAtRun(s, i + 1, g0, '.');
    FieldsStep(s, i + 1, Dots, g0, e);
  }

  /** A non-empty run of ASCII digits. */
  predicate IsRun(d: string) { |d| >= 1 && AllDigits(d) }

  /** The dotted quad of four runs of digits. */
  function Quad(d0: string, d1: string, d2: string, d3: string): string
  {
    d0 + "." + d1 + "." + d2 + "." + d3
  }

  /** The tail " <at> <mac> <rest>" at t[from] is the one the greedy .*
      settles on when nothing after the MAC reads " at " in any case. */
  lemma TailOfMac(t: string, from: nat, w: string, mac: string, rest: string)
    requires from <= |t| && AtWord(w) && t[from..] == " " + w + " " + mac + " " + rest
    requires MacField(mac)
    requires NoAt(" " + rest)
    ensures Tail(t, from) == Some(from)
  {
    var u := " " + rest;
    assert forall k :: from + 4 <= k < from + 21 ==> t[k] == mac[k - from - 4];
    assert forall k :: from + 21 <= k < |t| ==> t[k] == u[k - from - 21];
    assert t[from] == ' ' && t[from + 1] == w[0] && t[from + 2] == w[1] && t[from + 3] == ' ';
    assert TailFits(t, from, from);
    forall q | from < q && TailFits(t, from, q)
      ensures false
    {
      if q >= from + 21 {
        assert AtAt(u, q - from - 21);
      }
    }
    TailIsLast(t, from, from);
    TailFound(t, from);
  }

  /** A MAC field the pattern accepts. */
  predicate MacField(mac: string)
  {
    |mac| == 17 && forall k :: 0 <= k < 17 ==> IsMacClass(mac[k])
  }

  /** The line arp -an prints for an entry, with w the word "at" (arp
      prints it in lower case; re.I accepts any case). */
  function ArpLine(ip: string, w: string, mac: string, rest: string): string
  {
    "? (" + ip + ") " + w + " " + mac + " " + rest
  }

  /** Where the address sits in a line as arp -an prints it. */
  lemma ArpLineQuad(ip: string, w: string, mac: string, rest: string, g0: nat, g1: nat, g2: nat)
    requires QuadAt("(" + ip + ")", 0, g0, g1, g2, |ip| + 1)
    ensures QuadAt(ArpLine(ip, w, mac, rest), 2, g0 + 2, g1 + 2, g2 + 2, 3 + |ip|)
  {
    ArpLineAddress(ip, w, mac, rest);
    QuadAtShift("(" + ip + ")", ArpLine(ip, w, mac, rest), 2, g0, g1, g2, |ip| + 1);
  }

  /** QuadAt holds wherever the same characters are found. */
  lemma QuadAtShift(s: string, t: string, j: nat, g0: nat, g1: nat, g2: nat, e: nat)
    requires QuadAt(s, 0, g0, g1, g2, e) && j + e < |t|
    requires forall k :: 0 <= k <= e ==> t[j + k] == s[k]
    ensures QuadAt(t, j, j + g0, j + g1, j + g2, j + e)
  {
    assert forall k :: j <= k <= j + e ==> t[k] == s[k - j];
  }

  /** The address sits between the "(" at 2 and the ")" after it. */
  lemma ArpLineAddress(ip: string, w: string, mac: string, rest: string)
    ensures |ArpLine(ip, w, mac, rest)| > 3 + |ip|
    ensures ArpLine(ip, w, mac, rest)[2] == '(' && ArpLine(ip, w, mac, rest)[3 + |ip|] == ')'
    ensures forall k :: 0 <= k <= |ip| + 1 ==> ArpLine(ip, w, mac, rest)[2 + k] == ("(" + ip + ")")[k]
  {
  }

  /** The runs and dots of a dotted quad. */
  lemma QuadRuns(d0: string, d1: string, d2: string, d3: string)
    requires IsRun(d0) && IsRun(d1) && IsRun(d2) && IsRun(d3)
    ensures QuadAt("(" + Quad(d0, d1, d2, d3) + ")", 0, 1 + |d0|, 2 + |d0| + |d1|,
                   3 + |d0| + |d1| + |d2|, 4 + |d0| + |d1| + |d2| + |d3|)
  {
    var s := "(" + Quad(d0, d1, d2, d3) + ")";
    var g0, g1, g2 := 1 + |d0|, 2 + |d0| + |d1|, 3 + |d0| + |d1| + |d2|;
    var e := 4 + |d0| + |d1| + |d2| + |d3|;
    assert RunAt(s, 1, g0) by {
      assert forall k :: 1 <= k < g0 ==> s[k] == d0[k - 1];
    }
    assert RunAt(s, g0 + 1, g1) by {
      assert forall k :: g0 + 1 <= k < g1 ==> s[k] == d1[k - g0 - 1];
    }
    assert RunAt(s, g1 + 1, g2) by {
      assert forall k :: g1 + 1 <= k < g2 ==> s[k] == d2[k - g1 - 1];
    }
    assert RunAt(s, g2 + 1, e) by {
      assert forall k :: g2 + 1 <= k < e ==> s[k] == d3[k - g2 - 1];
    }
  }

  /** Where the other parts of an arp -an line sit. */
  lemma ArpLineHead(ip: string, w: string, mac: string, rest: string)
    ensures |ArpLine(ip, w, mac, rest)| >= 2 && ArpLine(ip, w, mac, rest)[..2] == "? "
  {
  }

  /** The text after the ')'. */
  lemma ArpLineSuffix(ip: string, w: string, mac: string, rest: string)
    ensures ArpLine(ip, w, mac, rest)[3 + |ip| + 1..] == " " + w + " " + mac + " " + rest
  {
  }

  /** The two groups the pattern captures. */
  lemma ArpLineGroups(ip: string, w: string, mac: string, rest: string)
    requires |w| == 2 && |mac| == 17
    ensures 3 + |ip| + 22 <= |ArpLine(ip, w, mac, rest)|
    ensures ArpLine(ip, w, mac, rest)[3..3 + |ip|] == ip
    ensures ArpLine(ip, w, mac, rest)[3 + |ip| + 5..3 + |ip| + 22] == mac
  {
  }

  /** A line whose address part starts at its third character and whose
      tail follows the ')' directly is matched there. */
  lemma SearchAtThird(line: string, e: nat)
    requires |line| >= 2 && line[..2] == "? "
    requires IpAt(line, 2) == Some(e) && Tail(line, e + 1) == Some(e + 1)
    ensures SearchFrom(line, 0) == Some(Found(2, e, e + 1))
  {
    assert line[0] == line[..2][0] && line[1] == line[..2][1];
    assert MatchAt(line, 2) == Some(Found(2, e, e + 1));
    assert SearchFrom(line, 2) == Some(Found(2, e, e + 1));
    assert MatchAt(line, 1).None? && MatchAt(line, 0).None?;
  }

  /** The groups of that match. */
  lemma SearchGroups(line: string, e: nat, ip: string, mac: string)
    requires SearchFrom(line, 0) == Some(Found(2, e, e + 1))
    requires e + 22 <= |line| && line[3..e] == ip && line[e + 5..e + 22] == mac
    ensures Search(line) == Some(Groups(ip, mac))
  {
  }

  /** A line as arp -an prints it yields its address and hardware address. */
  lemma SearchArpLine(d0: string, d1: string, d2: string, d3: string, w: string, mac: string, rest: string)
    requires IsRun(d0) && IsRun(d1) && IsRun(d2) && IsRun(d3)
    requires AtWord(w) && MacField(mac) && NoAt(" " + rest)
    ensures Search(ArpLine(Quad(d0, d1, d2, d3), w, mac, rest)) == Some(Groups(Quad(d0, d1, d2, d3), mac))
  {
    QuadRuns(d0, d1, d2, d3);
    SearchArpLineOf(Quad(d0, d1, d2, d3), w, mac, rest, 1 + |d0|, 2 + |d0| + |d1|, 3 + |d0| + |d1| + |d2|);
  }

  /** The same for any address whose runs and dots are known. */
  lemma SearchArpLineOf(ip: string, w: string, mac: string, rest: string, g0: nat, g1: nat, g2: nat)
    requires QuadAt("(" + ip + ")", 0, g0, g1, g2, |ip| + 1)
    requires AtWord(w) && MacField(mac) && NoAt(" " + rest)
    ensures Search(ArpLine(ip, w, mac, rest)) == Some(Groups(ip, mac))
  {
    ArpLineQuad(ip, w, mac, rest, g0, g1, g2);
    ArpLineHead(ip, w, mac, rest);
    ArpLineSuffix(ip, w, mac, rest);
    ArpLineGroups(ip, w, mac, rest);
    SearchLaidOut(ArpLine(ip, w, mac, rest), ip, w, mac, rest, g0 + 2, g1 + 2, g2 + 2);
  }

  /** Search on any line laid out as arp -an prints one. */
  lemma SearchLaidOut(line: string, ip: string, w: string, mac: string, rest: string, g0: nat, g1: nat, g2: nat)
    requires QuadAt(line, 2, g0, g1, g2, 3 + |ip|) && AtWord(w) && MacField(mac) && NoAt(" " + rest)
    requires |line| >= 2 && line[..2] == "? "
    requires 3 + |ip| + 1 <= |line| && line[3 + |ip| + 1..] == " " + w + " " + mac + " " + rest
    requires 3 + |ip| + 22 <= |line| && line[3..3 + |ip|] == ip
    requires line[3 + |ip| + 5..3 + |ip| + 22] == mac
    ensures Search(line) == Some(Groups(ip, mac))
  {
    MatchLaidOut(line, ip, w, mac, rest, g0, g1, g2);
    SearchGroups(line, 3 + |ip|, ip, mac);
  }

  /** re.search matches such a line at its '('. */
  lemma MatchLaidOut(line: string, ip: string, w: string, mac: string, rest: string, g0: nat, g1: nat, g2: nat)
    requires QuadAt(line, 2, g0, g1, g2, 3 + |ip|) && AtWord(w) && MacField(mac) && NoAt(" " + rest)
    requires |line| >= 2 && line[..2] == "? "
    requires 3 + |ip| + 1 <= |line| && line[3 + |ip| + 1..] == " " + w + " " + mac + " " + rest
    ensures SearchFrom(line, 0) == Some(Found(2, 3 + |ip|, 3 + |ip| + 1))
  {
    IpAtQuadAt(line, 2, g0, g1, g2, 3 + |ip|);
    TailOfMac(line, 3 + |ip| + 1, w, mac, rest);
    SearchAtThird(line, 3 + |ip|);
  }

  /** The first line that hits decides the lookup. */
  lemma {:induction false} FirstHitAt(lines: seq<string>, i: nat, k: nat, macLower: string)
    requires i <= k < |lines| && LineHit(lines[k], macLower).Some?
    requires forall j :: i <= j < k ==> LineHit(lines[j], macLower).None?
    ensures FirstHitFrom(lines, i, macLower) == LineHit(lines[k], macLower)
    decreases k - i
  {
    if i < k {
      FirstHitAt(lines, i + 1, k, macLower);
    }
  }

  /** The VM's own line hits: arp_lookup_by_mac returns the address on the
      first line that carries the VM's MAC, in any letter case, when no
      earlier line hits. */
  lemma LookupFindsVm(lines: seq<string>, k: nat, d0: string, d1: string, d2: string, d3: string,
                      w: string, mac: string, rest: string)
    requires IsRun(d0) && IsRun(d1) && IsRun(d2) && IsRun(d3)
    requires AtWord(w) && MacField(mac) && NoAt(" " + rest)
    requires k < |lines| && lines[k] == ArpLine(Quad(d0, d1, d2, d3), w, mac, rest)
    requires forall j :: 0 <= j < k ==> LineHit(lines[j], Lower(mac)).None?
    ensures FirstHit(lines, Lower(mac)) == Some(Quad(d0, d1, d2, d3))
  {
    SearchArpLine(d0, d1, d2, d3, w, mac, rest);
    FirstHitAt(lines, 0, k, Lower(mac));
  }

  /** A line that prints the word in upper case is matched too, with the
      address and MAC it carries. */
  lemma UpperCaseAtMatches(line: string)
    requires line == "? (10.0.0.5) AT 52:54:00:aa:bb:cc x"
    ensures Search(line) == Some(Groups("10.0.0.5", "52:54:00:aa:bb:cc"))
  {
    var mac := "52:54:00:aa:bb:cc";
    assert MacField(mac);
    assert IsRun("10") && IsRun("0") && IsRun("5");
    SearchArpLine("10", "0", "0", "5", "AT", mac, "x");
    UpperCaseQuad();
    UpperCaseLine();
  }

  lemma UpperCaseQuad()
    ensures Quad("10", "0", "0", "5") == "10.0.0.5"
  {
  }

  lemma UpperCaseLine()
    ensures ArpLine(Quad("10", "0", "0", "5"), "AT", "52:54:00:aa:bb:cc", "x") == "? (10.0.0.5) AT 52:54:00:aa:bb:cc x"
  {
    UpperCaseQuad();
  }
}
