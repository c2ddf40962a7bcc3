/** The text `dump_to_file` writes (lib/env_mem.rb line 7): `GC.stat.inspect`,
    a hash from symbols to integers printed as `{:k1=>v1, :k2=>v2}`. It is
    the input `gc_stat_to_shell` is meant to read back. */
module StatDump {
  import opened DecimalText
  import opened GcScan

  /** One entry of `GC.stat`: a symbol key and its count. */
  datatype Stat = Stat(key: string, value: nat)

  /** `:key=>value`, as `Hash#inspect` prints a symbol key and an integer. */
  function EntryText(e: Stat): string {
    ":" + e.key + "=>" + Decimal(e.value)
  }

  /** The entries joined with `, `. */
  function Body(es: seq<Stat>): string {
    if |es| == 0 then ""
    else if |es| == 1 then EntryText(es[0])
    else EntryText(es[0]) + ", " + Body(es[1..])
  }

  /** `Hash#inspect` of the whole table. */
  function Inspect(es: seq<Stat>): string {
    "{" + Body(es) + "}"
  }

  /** Every key prints as a bare symbol, `:name`. */
  predicate NamedKeys(es: seq<Stat>) {
    forall i :: 0 <= i < |es| ==> IsName(es[i].key)
  }

  /** What a scan should capture from an entry: its key and the decimal text of its value. */
  function EntryCapture(e: Stat): Capture {
    Capture(e.key, Decimal(e.value))
  }

  /** The captures a scan of the dump should give, entry by entry in order. */
  function Expected(es: seq<Stat>): (r: seq<Capture>)
    ensures |r| == |es|
  {
    if |es| == 0 then [] else [EntryCapture(es[0])] + Expected(es[1..])
  }

  lemma {:induction false} ExpectedIndex(es: seq<Stat>, i: nat)
    requires i < |es|
    ensures |Expected(es)| == |es| && Expected(es)[i] == EntryCapture(es[i])
  {
    if i > 0 {
      ExpectedIndex(es[1..], i - 1);
    } else if |es| > 1 {
      ExpectedIndex(es[1..], 0);
    }
  }

  /** Where each part of an entry stands in a text that holds it at `p`. */
  lemma EntryChars(s: string, p: nat, e: Stat, rest: string)
    requires p <= |s| && s[p..] == EntryText(e) + rest
    ensures |s| == p + 3 + |e.key| + |Decimal(e.value)| + |rest|
    ensures s[p] == ':'
    ensures forall j :: 0 <= j < |e.key| ==> s[p + 1 + j] == e.key[j]
    ensures s[p + 1 + |e.key|] == '=' && s[p + 2 + |e.key|] == '>'
    ensures forall j :: 0 <= j < |Decimal(e.value)| ==> s[p + 3 + |e.key| + j] == Decimal(e.value)[j]
    ensures forall j :: 0 <= j < |rest| ==> s[p + 3 + |e.key| + |Decimal(e.value)| + j] == rest[j]
  {
    var d := Decimal(e.value);
    var t := s[p..];
    assert t == [':'] + e.key + ['=', '>'] + d + rest;
    assert forall j :: 0 <= j < |t| ==> s[p + j] == t[j];
  }

  /** The match the scanner finds at an entry that is followed by a
      non-digit. */
  function EntryMatch(p: nat, e: Stat): Match {
    var n := p + 1 + |e.key|;
    Match(p, n, n, n + 2, n + 2 + |Decimal(e.value)|)
  }

  lemma EntryName(s: string, p: nat, e: Stat, rest: string)
    requires p <= |s| && s[p..] == EntryText(e) + rest && IsName(e.key)
    ensures All(s, p + 1, p + 1 + |e.key|, NameChars)
    ensures s[p + 1..p + 1 + |e.key|] == e.key
  {
    EntryChars(s, p, e, rest);
    forall k | p + 1 <= k < p + 1 + |e.key|
      ensures s[k] == e.key[k - p - 1]
    {
      var j := k - p - 1;
      assert s[p + 1 + j] == e.key[j];
    }
  }

  lemma EntryDigits(s: string, p: nat, e: Stat, rest: string)
    requires p <= |s| && s[p..] == EntryText(e) + rest
    ensures All(s, EntryMatch(p, e).digitsStart, EntryMatch(p, e).end, Digits)
    ensures s[EntryMatch(p, e).digitsStart..EntryMatch(p, e).end] == Decimal(e.value)
  {
    EntryChars(s, p, e, rest);
    var m := EntryMatch(p, e);
    var d := Decimal(e.value);
    forall k | m.digitsStart <= k < m.end
      ensures s[k] == d[k - m.digitsStart]
    {
      var j := k - m.digitsStart;
      assert s[p + 3 + |e.key| + j] == d[j];
    }
  }

  /** What follows the entry. */
  lemma EntryRest(s: string, p: nat, e: Stat, rest: string)
    requires p <= |s| && s[p..] == EntryText(e) + rest
    ensures EntryMatch(p, e).end <= |s| && s[EntryMatch(p, e).end..] == rest
  {
    EntryChars(s, p, e, rest);
  }

  lemma EntryIsMatch(s: string, p: nat, e: Stat, rest: string)
    requires p <= |s| && s[p..] == EntryText(e) + rest
    requires IsName(e.key) && |rest| > 0 && !IsDigit(rest[0])
    ensures IsMatch(s, EntryMatch(p, e))
    ensures CaptureOf(s, EntryMatch(p, e)) == EntryCapture(e)
  {
    EntryChars(s, p, e, rest);
    EntryName(s, p, e, rest);
    EntryDigits(s, p, e, rest);
    var m := EntryMatch(p, e);
    assert s[m.end] == rest[0] by {
      assert s[p + 3 + |e.key| + |Decimal(e.value)| + 0] == rest[0];
    }
  }

  /** At the closing brace nothing more is found. */
  lemma ScanClose(s: string, p: nat)
    requires p <= |s| && s[p..] == "}"
    ensures ScanFrom(s, p) == []
  {
    assert s[p] == '}' && p + 1 == |s|;
    SkipNonColons(s, p, p + 1);
  }

  /** The `, ` between two entries is passed over. */
  lemma ScanSeparator(s: string, q: nat, t: string)
    requires q <= |s| && s[q..] == ", " + t
    ensures q + 2 <= |s| && ScanFrom(s, q) == ScanFrom(s, q + 2) && s[q + 2..] == t
  {
    assert s[q] == ',' && s[q + 1] == ' ';
    SkipNonColons(s, q, q + 2);
    assert s[q + 2..] == s[q..][2..];
  }

  /** An entry followed by a non-digit is one match, then the scan goes on after it. */
  lemma ScanEntry(s: string, p: nat, e: Stat, rest: string)
    requires p <= |s| && s[p..] == EntryText(e) + rest
    requires IsName(e.key) && |rest| > 0 && !IsDigit(rest[0])
    ensures EntryMatch(p, e).end <= |s| && s[EntryMatch(p, e).end..] == rest
    ensures ScanFrom(s, p) == [EntryMatch(p, e)] + ScanFrom(s, EntryMatch(p, e).end)
    ensures InText(s, EntryMatch(p, e))
    ensures CaptureOf(s, EntryMatch(p, e)) == EntryCapture(e)
  {
    EntryIsMatch(s, p, e, rest);
    EntryRest(s, p, e, rest);
    MatchAtComplete(s, EntryMatch(p, e));
    ScanTake(s, p, EntryMatch(p, e));
  }

  /** The entries after the first, as the dump lays them out. */
  lemma BodyCons(es: seq<Stat>)
    requires |es| > 1
    ensures Body(es) + "}" == EntryText(es[0]) + (", " + (Body(es[1..]) + "}"))
  {
    var x, b := EntryText(es[0]), Body(es[1..]);
    assert Body(es) == x + ", " + b;
    AppendAssoc(x + ", ", b, "}");
    AppendAssoc(x, ", ", b + "}");
  }

  lemma AppendAssoc(a: string, b: string, c: string)
    ensures (a + b) + c == a + (b + c)
  {
  }

  /** The matches `ms` capture the entries `es`, one for one. */
  predicate CapturesEntries(s: string, ms: seq<Match>, es: seq<Stat>) {
    AllInText(s, ms) && CapturesOf(s, ms) == Expected(es)
  }

  lemma ConsCaptures(s: string, m: Match, ms: seq<Match>, all: seq<Match>, es: seq<Stat>)
    requires |es| > 0 && all == [m] + ms
    requires InText(s, m) && CaptureOf(s, m) == EntryCapture(es[0])
    requires CapturesEntries(s, ms, es[1..])
    ensures CapturesEntries(s, all, es)
  {
    assert all[0] == m && all[1..] == ms;
  }

  /** One step of the scan over the dump: the first entry is one match and
      the scan goes on at `q`, where the next entry (or the closing brace)
      starts. */
  lemma StepEntry(s: string, p: nat, es: seq<Stat>) returns (q: nat)
    requires |es| > 0 && p <= |s| && s[p..] == Body(es) + "}" && IsName(es[0].key)
    ensures InText(s, EntryMatch(p, es[0])) && CaptureOf(s, EntryMatch(p, es[0])) == EntryCapture(es[0])
    ensures q <= |s| && s[q..] == Body(es[1..]) + "}"
    ensures ScanFrom(s, p) == [EntryMatch(p, es[0])] + ScanFrom(s, q)
  {
    if |es| == 1 {
      q := StepLast(s, p, es);
    } else {
      BodyCons(es);
      q := ScanEntrySeparator(s, p, es[0], Body(es[1..]) + "}");
    }
  }

  lemma StepLast(s: string, p: nat, es: seq<Stat>) returns (q: nat)
    requires |es| == 1 && p <= |s| && s[p..] == Body(es) + "}" && IsName(es[0].key)
    ensures InText(s, EntryMatch(p, es[0])) && CaptureOf(s, EntryMatch(p, es[0])) == EntryCapture(es[0])
    ensures q <= |s| && s[q..] == Body(es[1..]) + "}"
    ensures ScanFrom(s, p) == [EntryMatch(p, es[0])] + ScanFrom(s, q)
  {
    ScanEntry(s, p, es[0], "}");
    q := EntryMatch(p, es[0]).end;
    assert Body(es[1..]) + "}" == "}";
  }

  /** An entry followed by `, ` and more text: one match, then the scan goes
      on after the separator. */
  lemma ScanEntrySeparator(s: string, p: nat, e: Stat, t: string) returns (q: nat)
    requires p <= |s| && s[p..] == EntryText(e) + (", " + t) && IsName(e.key)
    ensures InText(s, EntryMatch(p, e)) && CaptureOf(s, EntryMatch(p, e)) == EntryCapture(e)
    ensures q <= |s| && s[q..] == t
    ensures ScanFrom(s, p) == [EntryMatch(p, e)] + ScanFrom(s, q)
  {
    ScanEntry(s, p, e, ", " + t);
    q := SkipSeparator(s, p, EntryMatch(p, e), EntryMatch(p, e).end, t);
  }

  /** Passing over the `, ` after a match. */
  lemma SkipSeparator(s: string, p: nat, m: Match, r: nat, t: string) returns (q: nat)
    requires p <= |s| && r <= |s| && s[r..] == ", " + t
    requires ScanFrom(s, p) == [m] + ScanFrom(s, r)
    ensures q <= |s| && s[q..] == t
    ensures ScanFrom(s, p) == [m] + ScanFrom(s, q)
  {
    ScanSeparator(s, r, t);
    q := r + 2;
  }

  /** Scanning from the start of the entries `es`, laid out as in the dump and
      followed by the closing brace, finds one match per entry, in order. */
  lemma {:induction false} ScanBody(s: string, p: nat, es: seq<Stat>)
    requires p <= |s| && s[p..] == Body(es) + "}"
    requires NamedKeys(es)
    ensures CapturesEntries(s, ScanFrom(s, p), es)
    decreases |es|
  {
    if |es| == 0 {
      ScanClose(s, p);
    } else {
      var tail := es[1..];
      assert NamedKeys(tail) by {
        assert forall k :: 0 <= k < |tail| ==> tail[k] == es[k + 1];
      }
      var next := StepEntry(s, p, es);
      ScanBody(s, next, tail);
      ConsCaptures(s, EntryMatch(p, es[0]), ScanFrom(s, next), ScanFrom(s, p), es);
    }
  }

  /** The opening brace is passed over. */
  lemma ScanOpen(es: seq<Stat>)
    ensures 1 <= |Inspect(es)| && Inspect(es)[1..] == Body(es) + "}"
    ensures ScanFrom(Inspect(es), 0) == ScanFrom(Inspect(es), 1)
  {
    var s := Inspect(es);
    InspectText(es);
    SkipNonColons(s, 0, 1);
  }

  lemma InspectText(es: seq<Stat>)
    ensures 1 <= |Inspect(es)| && Inspect(es)[0] == '{' && Inspect(es)[1..] == Body(es) + "}"
  {
    AppendAssoc("{", Body(es), "}");
    assert Inspect(es) == "{" + (Body(es) + "}");
  }

  /** Round trip: scanning the dump of a table whose keys print as bare
      symbols gives back every key with the decimal text of its value, in
      order. */
  lemma DumpRoundTrip(es: seq<Stat>)
    requires NamedKeys(es)
    ensures Scan(Inspect(es)) == Expected(es)
    ensures |Scan(Inspect(es))| == |es|
    ensures forall i :: 0 <= i < |es| ==> Scan(Inspect(es))[i] == Capture(es[i].key, Decimal(es[i].value))
  {
    DumpScan(es);
    forall i | 0 <= i < |es|
      ensures Scan(Inspect(es))[i] == Capture(es[i].key, Decimal(es[i].value))
    {
      ExpectedIndex(es, i);
    }
  }

  lemma DumpScan(es: seq<Stat>)
    requires NamedKeys(es)
    ensures Scan(Inspect(es)) == Expected(es)
  {
    var s := Inspect(es);
    ScanOpen(es);
    ScanBody(s, 1, es);
  }
}
