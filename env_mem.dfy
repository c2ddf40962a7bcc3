/** `EnvMem.gc_stat_to_shell` (lib/env_mem.rb lines 10-57): scan the text of
    a `GC.stat` dump for `:key=>digits` pairs, fold them into a hash, and
    fill the shell template from it. */
module EnvMem {
  import opened DecimalText
  import opened GcScan
  import opened StatsHash
  import opened ShellTemplate
  import opened StatDump

  /** `stats_hash` once the scan and the `each` block have run. */
  function HashOf(stats: string): map<string, nat> {
    ScanNumeric(stats);
    StatsHashOf(Scan(stats))
  }

  /** The whole method, for any string: there is no input it rejects. */
  method GcStatToShell(stats: string) returns (shell: string)
    ensures shell == Render(HashOf(stats))
    ensures |shell| > 0 && shell[|shell| - 1] == '\n'
  {
    var caps := Scan(stats);
    ScanNumeric(stats);
    var stats_hash := BuildStatsHash(caps);
    shell := Render(stats_hash);
    RenderLinesLength(Blocks, stats_hash);
  }

  /** The hash has exactly the keys some pair of the text names, and each
      holds the value of the last such pair. */
  lemma HashKeys(stats: string, key: string)
    ensures key in HashOf(stats) <==> exists j :: 0 <= j < |Scan(stats)| && Scan(stats)[j].key == key
    ensures forall j: nat :: IsLastOf(Scan(stats), key, j) ==>
      IsDigits(Scan(stats)[j].val) && key in HashOf(stats) && HashOf(stats)[key] == DigitsValue(Scan(stats)[j].val)
  {
    ScanNumeric(stats);
    StoredIffCaptured(Scan(stats), key);
    forall j: nat | IsLastOf(Scan(stats), key, j)
      ensures IsDigits(Scan(stats)[j].val) && key in HashOf(stats) && HashOf(stats)[key] == DigitsValue(Scan(stats)[j].val)
    {
      LastWins(Scan(stats), key, j);
    }
  }

  /** With a `heap_available_slots` pair in the text, the FREE_SLOTS export
      carries the digits of the last one, leading zeros dropped. */
  lemma FreeSlotsFromLastPair(stats: string, j: nat)
    requires IsLastOf(Scan(stats), HeapKey, j)
    ensures |Scan(stats)[j].val| > 0 && IsDigits(Scan(stats)[j].val)
    ensures RenderLines(Blocks, HashOf(stats))[1] ==
      "export " + FreeSlotsVar + "=" + StripLeadingZeros(Scan(stats)[j].val)
  {
    var caps := Scan(stats);
    ScanNumeric(stats);
    ScanCaptures(stats, j);
    LastWins(caps, HeapKey, j);
    FreeSlotsLine(HashOf(stats));
    DecimalDropsLeadingZeros(caps[j].val);
  }

  /** Without one, `stats_hash["heap_available_slots"]` is `nil` and the
      export is blank. */
  lemma FreeSlotsBlank(stats: string)
    requires forall j :: 0 <= j < |Scan(stats)| ==> Scan(stats)[j].key != HeapKey
    ensures RenderLines(Blocks, HashOf(stats))[1] == "export " + FreeSlotsVar + "="
  {
    ScanNumeric(stats);
    NeverCapturedAbsent(Scan(stats), HeapKey);
    FreeSlotsLine(HashOf(stats));
  }

  /** Two inputs give the same script exactly when they agree on the heap
      slot count (or both lack it). */
  lemma ShellDependsOnlyOnHeap(s1: string, s2: string)
    ensures Render(HashOf(s1)) == Render(HashOf(s2)) <==>
      Lookup(HashOf(s1), HeapKey) == Lookup(HashOf(s2), HeapKey)
  {
    RenderDependsOnlyOnHeap(HashOf(s1), HashOf(s2));
  }

  /** An input with no pair at all, such as an empty dump, leaves every
      export blank. */
  lemma NoPairsAllBlank(stats: string, i: nat)
    requires Scan(stats) == [] && i < |Blocks|
    ensures HashOf(stats) == map[] && |RenderLines(Blocks, HashOf(stats))| == 41
    ensures RenderLines(Blocks, HashOf(stats))[3 * i + 1] == "export " + Blocks[i].variable + "="
  {
    TemplateFixed(HashOf(stats), i);
    if i == 0 {
      FreeSlotsBlank(stats);
    } else {
      OtherExportsBlank(HashOf(stats), i);
    }
  }

  /** The dump of an empty table, `{}`, holds no pair. */
  lemma EmptyDump()
    ensures Inspect([]) == "{}" && Scan("{}") == []
  {
    DumpRoundTrip([]);
  }

  /** Reading back a dump: the last entry of each key gives the stored value. */
  lemma DumpHash(es: seq<Stat>, i: nat)
    requires NamedKeys(es) && i < |es|
    requires forall j :: i < j < |es| ==> es[j].key != es[i].key
    ensures es[i].key in HashOf(Inspect(es)) && HashOf(Inspect(es))[es[i].key] == es[i].value
  {
    var caps := Scan(Inspect(es));
    DumpRoundTrip(es);
    ScanNumeric(Inspect(es));
    forall j | i < j < |es|
      ensures caps[j].key != es[i].key
    {
      ExpectedIndex(es, j);
    }
    ExpectedIndex(es, i);
    LastWins(caps, es[i].key, i);
    DecimalValue(es[i].value);
  }

  /** Reading back a dump: a key no entry has is absent from the hash. */
  lemma DumpMissingKey(es: seq<Stat>, key: string)
    requires NamedKeys(es)
    requires forall j :: 0 <= j < |es| ==> es[j].key != key
    ensures key !in HashOf(Inspect(es))
  {
    var caps := Scan(Inspect(es));
    DumpRoundTrip(es);
    ScanNumeric(Inspect(es));
    forall j | 0 <= j < |caps|
      ensures caps[j].key != key
    {
      ExpectedIndex(es, j);
    }
    NeverCapturedAbsent(caps, key);
  }

  /** Reading back a dump whose keys are distinct gives the table itself:
      the same keys, each with its own value. */
  lemma DumpHashIsTable(es: seq<Stat>)
    requires NamedKeys(es)
    requires forall i, j :: 0 <= i < j < |es| ==> es[i].key != es[j].key
    ensures forall i :: 0 <= i < |es| ==>
      es[i].key in HashOf(Inspect(es)) && HashOf(Inspect(es))[es[i].key] == es[i].value
    ensures forall k :: k in HashOf(Inspect(es)) <==> exists i :: 0 <= i < |es| && es[i].key == k
  {
    forall i | 0 <= i < |es|
      ensures es[i].key in HashOf(Inspect(es)) && HashOf(Inspect(es))[es[i].key] == es[i].value
    {
      DumpHash(es, i);
    }
    forall k
      ensures k in HashOf(Inspect(es)) <==> exists i :: 0 <= i < |es| && es[i].key == k
    {
      if forall i :: 0 <= i < |es| ==> es[i].key != k {
        DumpMissingKey(es, k);
      }
    }
  }

  /** The script made from a dump with a `heap_available_slots` entry:
      FREE_SLOTS is the decimal text of the last such entry. */
  lemma DumpFreeSlots(es: seq<Stat>, i: nat)
    requires NamedKeys(es) && i < |es| && es[i].key == HeapKey
    requires forall j :: i < j < |es| ==> es[j].key != HeapKey
    ensures RenderLines(Blocks, HashOf(Inspect(es)))[1] ==
      "export " + FreeSlotsVar + "=" + Decimal(es[i].value)
  {
    DumpHash(es, i);
    FreeSlotsLine(HashOf(Inspect(es)));
  }

  /** The script made from a dump without a `heap_available_slots` entry:
      FREE_SLOTS is blank. */
  lemma DumpFreeSlotsBlank(es: seq<Stat>)
    requires NamedKeys(es)
    requires forall j :: 0 <= j < |es| ==> es[j].key != HeapKey
    ensures RenderLines(Blocks, HashOf(Inspect(es)))[1] == "export " + FreeSlotsVar + "="
  {
    DumpMissingKey(es, HeapKey);
    FreeSlotsLine(HashOf(Inspect(es)));
  }
}
