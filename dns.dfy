/** The name-server list of spawn_overlays.py: the --dns option is split on
    commas, every field is stripped, empty fields are dropped, and what is
    left is joined with commas again before it goes into the network
    configuration. */
module Dns {
  import opened Text

  /** A usable entry: not empty, no surrounding whitespace, no comma. */
  predicate CleanEntry(e: string)
  {
    e != "" && Stripped(e) && ',' !in e
  }

  /** What one field contributes: its strip, when that is not empty. */
  function Kept(x: string): seq<string>
  {
    var d := Strip(x);
    if d != "" then [d] else []
  }

  /** The list comprehension [d.strip() for d in fields if d.strip()]. */
  function StripNonEmpty(fields: seq<string>): (r: seq<string>)
    ensures |r| <= |fields|
  {
    if fields == [] then [] else Kept(fields[0]) + StripNonEmpty(fields[1..])
  }

  /** Every field that strips to something is kept, stripped, and every
      entry kept is the non-empty strip of some field. */
  lemma {:induction false} StripNonEmptyContents(fields: seq<string>)
    ensures forall k :: 0 <= k < |fields| && Strip(fields[k]) != "" ==> Strip(fields[k]) in StripNonEmpty(fields)
    ensures forall e :: e in StripNonEmpty(fields) ==> e != "" && exists k :: 0 <= k < |fields| && e == Strip(fields[k])
  {
    if fields != [] {
      var rest := fields[1..];
      StripNonEmptyContents(rest);
      var r := StripNonEmpty(fields);
      assert r == Kept(fields[0]) + StripNonEmpty(rest);
      forall k | 0 <= k < |fields| && Strip(fields[k]) != ""
        ensures Strip(fields[k]) in r
      {
        if k > 0 {
          assert fields[k] == rest[k - 1];
        }
      }
      forall e | e in r
        ensures e != "" && exists k :: 0 <= k < |fields| && e == Strip(fields[k])
      {
        if e in StripNonEmpty(rest) {
          var j :| 0 <= j < |rest| && e == Strip(rest[j]);
          assert fields[j + 1] == rest[j];
        } else {
          assert e == Strip(fields[0]);
        }
      }
    }
  }

  /** The comprehension keeps the order of the fields: filtering a
      concatenation is concatenating the filtered parts. */
  lemma {:induction false} StripNonEmptyAppend(f: seq<string>, g: seq<string>)
    ensures StripNonEmpty(f + g) == StripNonEmpty(f) + StripNonEmpty(g)
  {
    if f == [] {
      assert f + g == g;
    } else {
      assert (f + g)[0] == f[0] && (f + g)[1..] == f[1..] + g;
      StripNonEmptyAppend(f[1..], g);
    }
  }

  /** A single field contributes its strip when that is not empty, and
      nothing otherwise. */
  lemma StripNonEmptyOne(x: string)
    ensures StripNonEmpty([x]) == if Strip(x) != "" then [Strip(x)] else []
  {
    assert [x][1..] == [];
  }

  /** The entries the option contributes, in the order it gives them. */
  function Entries(dns: string): seq<string>
  {
    StripNonEmpty(Split(dns, ','))
  }

  /** ",".join(Entries(dns)) */
  function NormalizeDns(dns: string): string
  {
    Join(Entries(dns), ',')
  }

  lemma StripAvoids(x: string, c: char)
    requires c !in x
    ensures c !in Strip(x)
  {
    StripIsSlice(x);
  }

  lemma {:induction false} StripNonEmptyClean(fields: seq<string>)
    requires forall k :: 0 <= k < |fields| ==> ',' !in fields[k]
    ensures forall k :: 0 <= k < |StripNonEmpty(fields)| ==> CleanEntry(StripNonEmpty(fields)[k])
  {
    if fields != [] {
      StripNonEmptyClean(fields[1..]);
      StripIsStripped(fields[0]);
      StripAvoids(fields[0], ',');
    }
  }

  /** Every entry is non-empty, has no surrounding whitespace and no comma. */
  lemma EntriesAreClean(dns: string)
    ensures forall k :: 0 <= k < |Entries(dns)| ==> CleanEntry(Entries(dns)[k])
  {
    StripNonEmptyClean(Split(dns, ','));
  }

  /** Splitting the normalised list on commas gives exactly the entries back
      (and an empty option normalises to the empty string). */
  lemma NormalizedSplitsIntoEntries(dns: string)
    ensures Entries(dns) == [] ==> NormalizeDns(dns) == ""
    ensures Entries(dns) != [] ==> Split(NormalizeDns(dns), ',') == Entries(dns)
  {
    EntriesAreClean(dns);
    if Entries(dns) != [] {
      SplitJoin(Entries(dns), ',');
    }
  }

  /** Clean entries pass through the comprehension unchanged. */
  lemma {:induction false} StripNonEmptyKeepsClean(fields: seq<string>)
    requires forall k :: 0 <= k < |fields| ==> CleanEntry(fields[k])
    ensures StripNonEmpty(fields) == fields
  {
    if fields != [] {
      StripOfStripped(fields[0]);
      StripNonEmptyKeepsClean(fields[1..]);
      assert [fields[0]] + fields[1..] == fields;
    }
  }

  lemma NormalizeEmpty()
    ensures Entries("") == [] && NormalizeDns("") == ""
  {
    assert Split("", ',') == [""];
    assert Strip("") == "";
    assert StripNonEmpty([""]) == [] + StripNonEmpty([]);
  }

  /** Normalising an already normalised list changes nothing. */
  lemma NormalizeIdempotent(dns: string)
    ensures NormalizeDns(NormalizeDns(dns)) == NormalizeDns(dns)
  {
    var e := Entries(dns);
    NormalizedSplitsIntoEntries(dns);
    if e == [] {
      NormalizeEmpty();
    } else {
      EntriesAreClean(dns);
      StripNonEmptyKeepsClean(e);
      assert Entries(NormalizeDns(dns)) == e;
    }
  }
}
