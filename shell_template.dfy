/** The heredoc `gc_stat_to_shell` returns (lib/env_mem.rb lines 14-56):
    fourteen blocks, each a `# ` comment line naming a GC parameter and an
    `export VAR=` line, with an empty line between blocks. Only the first
    export interpolates anything, `stats_hash["heap_available_slots"]`; the
    other thirteen have nothing after the `=`. */
module ShellTemplate {
  import opened Wrappers
  import opened DecimalText
  import opened StatsHash

  /** One block of the heredoc: its comment, the exported variable, and the
      hash key interpolated after the `=`, if any. */
  datatype Block = Block(comment: string, variable: string, source: Option<string>)

  const HeapKey: string := "heap_available_slots"

  /** The one variable whose value is filled in. */
  const FreeSlotsVar: string := "RUBY_GC_HEAP_FREE_SLOTS"

  const Blocks: seq<Block> := [
    Block("gc_params.heap_free_slots", FreeSlotsVar, Some(HeapKey)),
    Block("gc_params.heap_init_slots", "RUBY_GC_HEAP_INIT_SLOTS", None),
    Block("gc_params.growth_factor", "RUBY_GC_HEAP_GROWTH_FACTOR", None),
    Block("gc_params.gc_params.growth_max_slots", "RUBY_GC_HEAP_GROWTH_MAX_SLOTS", None),
    Block("gc_params.heap_free_slots_min_ratio - between 0.0 and 1.0, default 1.0, 0.0 not allowed",
      "RUBY_GC_HEAP_FREE_SLOTS_MIN_RATIO", None),
    Block("gc_params.heap_free_slots_max_ratio - between 0.0 and 1.0, default 0.0 0.0 not allowed",
      "RUBY_GC_HEAP_FREE_SLOTS_MAX_RATIO", None),
    Block("gc_params.heap_free_slots_goal_ratio - between min and max ratio, 0.0 allowed",
      "RUBY_GC_HEAP_FREE_SLOTS_GOAL_RATIO", None),
    Block("gc_params.oldobject_limit_factor", "RUBY_GC_HEAP_OLDOBJECT_LIMIT_FACTOR", None),
    Block("gc_params.malloc_limit_min", "RUBY_GC_MALLOC_LIMIT", None),
    Block("gc_params.malloc_limit_max", "RUBY_GC_MALLOC_LIMIT_MAX", None),
    Block("gc_params.malloc_limit_growth_factor", "RUBY_GC_MALLOC_LIMIT_GROWTH_FACTOR", None),
    Block("gc_params.oldmalloc_limit_min", "RUBY_GC_OLDMALLOC_LIMIT", None),
    Block("gc_params.oldmalloc_limit_max", "RUBY_GC_OLDMALLOC_LIMIT_MAX", None),
    Block("gc_params.oldmalloc_limit_growth_factor", "RUBY_GC_OLDMALLOC_LIMIT_GROWTH_FACTOR", None)
  ]

  /** `#{v}`: `nil` interpolates as nothing, an integer as its decimal text. */
  function Interpolate(v: Option<nat>): (r: string)
    ensures v.None? <==> r == ""
    ensures v.Some? ==> IsCanonical(r) && DigitsValue(r) == v.value
  {
    match v
    case None => ""
    case Some(n) => DecimalValue(n); Decimal(n)
  }

  /** What follows the `=` of a block's export line. */
  function ValueOf(b: Block, h: map<string, nat>): string {
    match b.source
    case None => ""
    case Some(key) => Interpolate(Lookup(h, key))
  }

  function CommentLine(b: Block): string {
    "# " + b.comment
  }

  function ExportLine(b: Block, h: map<string, nat>): string {
    "export " + b.variable + "=" + ValueOf(b, h)
  }

  /** The lines of the blocks `bs`, an empty line between two blocks. */
  function RenderLines(bs: seq<Block>, h: map<string, nat>): seq<string> {
    if |bs| == 0 then []
    else if |bs| == 1 then [CommentLine(bs[0]), ExportLine(bs[0], h)]
    else [CommentLine(bs[0]), ExportLine(bs[0], h), ""] + RenderLines(bs[1..], h)
  }

  /** Each line followed by a line feed, as the heredoc lays them out. */
  function Unlines(ls: seq<string>): (t: string)
    ensures |ls| > 0 ==> |t| > 0 && t[|t| - 1] == '\n'
  {
    if |ls| == 0 then "" else ls[0] + "\n" + Unlines(ls[1..])
  }

  /** The text of the heredoc for the hash `h`. */
  function Render(h: map<string, nat>): string {
    Unlines(RenderLines(Blocks, h))
  }

  lemma {:induction false} RenderLinesLength(bs: seq<Block>, h: map<string, nat>)
    requires |bs| > 0
    ensures |RenderLines(bs, h)| == 3 * |bs| - 1
  {
    if |bs| > 1 {
      RenderLinesLength(bs[1..], h);
    }
  }

  /** Block `i` of `bs` takes lines `3 * i` (the comment) and `3 * i + 1` (the
      export), followed by an empty line unless it is the last block. */
  lemma {:induction false} RenderLinesShape(bs: seq<Block>, h: map<string, nat>, i: nat)
    requires i < |bs|
    ensures |RenderLines(bs, h)| == 3 * |bs| - 1
    ensures RenderLines(bs, h)[3 * i] == CommentLine(bs[i])
    ensures RenderLines(bs, h)[3 * i + 1] == ExportLine(bs[i], h)
    ensures i < |bs| - 1 ==> RenderLines(bs, h)[3 * i + 2] == ""
    decreases |bs|, 1
  {
    if i == 0 {
      RenderLinesHead(bs, h);
    } else {
      RenderLinesLater(bs, h, i);
    }
  }

  lemma {:induction false} RenderLinesHead(bs: seq<Block>, h: map<string, nat>)
    requires 0 < |bs|
    ensures |RenderLines(bs, h)| == 3 * |bs| - 1
    ensures RenderLines(bs, h)[0] == CommentLine(bs[0])
    ensures RenderLines(bs, h)[1] == ExportLine(bs[0], h)
    ensures 1 < |bs| ==> RenderLines(bs, h)[2] == ""
  {
    RenderLinesLength(bs, h);
  }

  lemma {:induction false} RenderLinesLater(bs: seq<Block>, h: map<string, nat>, i: nat)
    requires 0 < i < |bs|
    ensures |RenderLines(bs, h)| == 3 * |bs| - 1
    ensures RenderLines(bs, h)[3 * i] == CommentLine(bs[i])
    ensures RenderLines(bs, h)[3 * i + 1] == ExportLine(bs[i], h)
    ensures i < |bs| - 1 ==> RenderLines(bs, h)[3 * i + 2] == ""
    decreases |bs|, 0
  {
    RenderLinesLength(bs, h);
    var tail := RenderLines(bs[1..], h);
    assert RenderLines(bs, h) == [CommentLine(bs[0]), ExportLine(bs[0], h), ""] + tail;
    RenderLinesShape(bs[1..], h, i - 1);
    ShiftThree(CommentLine(bs[0]), ExportLine(bs[0], h), "", tail, 3 * (i - 1));
    assert bs[1..][i - 1] == bs[i];
  }

  /** Indices into a sequence that three elements precede. */
  lemma ShiftThree<T>(a: T, b: T, c: T, tail: seq<T>, j: nat)
    requires j + 1 < |tail|
    ensures ([a, b, c] + tail)[j + 3] == tail[j] && ([a, b, c] + tail)[j + 4] == tail[j + 1]
    ensures j + 2 < |tail| ==> ([a, b, c] + tail)[j + 5] == tail[j + 2]
  {
  }

  /** Blocks that interpolate nothing give the same lines whatever the hash. */
  lemma {:induction false} FixedBlocks(bs: seq<Block>, h1: map<string, nat>, h2: map<string, nat>)
    requires forall i :: 0 <= i < |bs| ==> bs[i].source == None
    ensures RenderLines(bs, h1) == RenderLines(bs, h2)
  {
    if |bs| > 1 {
      FixedBlocks(bs[1..], h1, h2);
    }
  }

  /** `#{}` tells values apart: different lookups interpolate differently. */
  lemma InterpolateInjective(u: Option<nat>, v: Option<nat>)
    ensures Interpolate(u) == Interpolate(v) <==> u == v
  {
    if u.Some? && v.Some? {
      DecimalInjective(u.value, v.value);
    }
  }

  lemma CancelPrefix(p: string, a: string, b: string)
    requires p + a == p + b
    ensures a == b
  {
    assert a == (p + a)[|p|..];
    assert b == (p + b)[|p|..];
  }

  lemma CancelSuffix(a: string, b: string, q: string)
    requires a + q == b + q
    ensures a == b
  {
    assert a == (a + q)[..|a|];
    assert b == (b + q)[..|b|];
  }

  lemma RenderLinesCons(b: Block, rest: seq<Block>, h: map<string, nat>)
    requires |rest| > 0
    ensures RenderLines([b] + rest, h) == [CommentLine(b), ExportLine(b, h), ""] + RenderLines(rest, h)
  {
    var bs := [b] + rest;
    assert |bs| > 1 && bs[0] == b && bs[1..] == rest;
    assert RenderLines(bs, h) == [CommentLine(bs[0]), ExportLine(bs[0], h), ""] + RenderLines(bs[1..], h);
  }

  lemma UnlinesCons3(a1: string, a2: string, a3: string, ls: seq<string>)
    ensures Unlines([a1, a2, a3] + ls) == (a1 + "\n") + ((a2 + "\n") + ((a3 + "\n") + Unlines(ls)))
  {
    var t0 := [a1, a2, a3] + ls;
    var t1 := [a2, a3] + ls;
    var t2 := [a3] + ls;
    assert t0[0] == a1 && t0[1..] == t1;
    assert t1[0] == a2 && t1[1..] == t2;
    assert t2[0] == a3 && t2[1..] == ls;
    assert Unlines(t2) == (a3 + "\n") + Unlines(ls);
    assert Unlines(t1) == (a2 + "\n") + Unlines(t2);
  }

  /** How the first block and the rest are laid out. */
  lemma LayoutFirst(b: Block, rest: seq<Block>, h: map<string, nat>)
    requires |rest| > 0
    ensures Unlines(RenderLines([b] + rest, h)) ==
      (CommentLine(b) + "\n") + ((ExportLine(b, h) + "\n") + ("\n" + Unlines(RenderLines(rest, h))))
  {
    RenderLinesCons(b, rest, h);
    UnlinesCons3(CommentLine(b), ExportLine(b, h), "", RenderLines(rest, h));
    assert "" + "\n" == "\n";
  }

  /** When the later blocks lay out alike, the text is decided by what the
      first block interpolates. */
  lemma FirstBlockDecides(b: Block, rest: seq<Block>, h1: map<string, nat>, h2: map<string, nat>)
    requires |rest| > 0 && RenderLines(rest, h1) == RenderLines(rest, h2)
    ensures Unlines(RenderLines([b] + rest, h1)) == Unlines(RenderLines([b] + rest, h2))
      <==> ValueOf(b, h1) == ValueOf(b, h2)
  {
    LayoutFirst(b, rest, h1);
    LayoutFirst(b, rest, h2);
    var c := CommentLine(b) + "\n";
    var x1, x2 := ExportLine(b, h1), ExportLine(b, h2);
    var tail := "\n" + Unlines(RenderLines(rest, h1));
    if Unlines(RenderLines([b] + rest, h1)) == Unlines(RenderLines([b] + rest, h2)) {
      CancelPrefix(c, (x1 + "\n") + tail, (x2 + "\n") + tail);
      CancelSuffix(x1 + "\n", x2 + "\n", tail);
      CancelSuffix(x1, x2, "\n");
      CancelPrefix("export " + b.variable + "=", ValueOf(b, h1), ValueOf(b, h2));
    }
  }

  /** The output depends on the hash only through `stats_hash["heap_available_slots"]`:
      two hashes give the same text exactly when they agree on that key. */
  lemma RenderDependsOnlyOnHeap(h1: map<string, nat>, h2: map<string, nat>)
    ensures Render(h1) == Render(h2) <==> Lookup(h1, HeapKey) == Lookup(h2, HeapKey)
  {
    var rest := Blocks[1..];
    assert forall i :: 0 <= i < |rest| ==> rest[i].source == None;
    FixedBlocks(rest, h1, h2);
    assert Blocks == [Blocks[0]] + rest;
    FirstBlockDecides(Blocks[0], rest, h1, h2);
    InterpolateInjective(Lookup(h1, HeapKey), Lookup(h2, HeapKey));
  }

  /** The text opens with the first comment and the FREE_SLOTS export, each
      free of line feeds and ended by one, so the export is the text's
      second line. */
  lemma FreeSlotsSecondLine(h: map<string, nat>)
    ensures Render(h) == (RenderLines(Blocks, h)[0] + "\n")
      + ((RenderLines(Blocks, h)[1] + "\n") + Unlines(RenderLines(Blocks, h)[2..]))
    ensures '\n' !in RenderLines(Blocks, h)[0] && '\n' !in RenderLines(Blocks, h)[1]
  {
    var ls := RenderLines(Blocks, h);
    RenderLinesShape(Blocks, h, 0);
    assert ls[1..][0] == ls[1] && ls[1..][1..] == ls[2..];
    assert Unlines(ls[1..]) == (ls[1] + "\n") + Unlines(ls[2..]);
    FirstLinesPlain(h);
  }

  lemma FirstLinesPlain(h: map<string, nat>)
    ensures '\n' !in CommentLine(Blocks[0]) && '\n' !in ExportLine(Blocks[0], h)
  {
    var c := CommentLine(Blocks[0]);
    assert forall k :: 0 <= k < |c| ==> c[k] != '\n';
    var p := "export " + FreeSlotsVar + "=";
    var v := Interpolate(Lookup(h, HeapKey));
    assert ExportLine(Blocks[0], h) == p + v;
    assert forall k :: 0 <= k < |p| ==> p[k] != '\n';
    assert forall k :: 0 <= k < |v| ==> v[k] != '\n' by {
      if Lookup(h, HeapKey).Some? {
        assert IsDigits(v);
      }
    }
    assert forall k :: 0 <= k < |p + v| ==> (p + v)[k] != '\n' by {
      forall k | 0 <= k < |p + v|
        ensures (p + v)[k] != '\n'
      {
        if k >= |p| {
          assert (p + v)[k] == v[k - |p|];
        }
      }
    }
  }

  /** The heredoc has 41 lines: the fourteen comments at lines `3 * i`, and
      empty lines between the blocks. */
  lemma TemplateFixed(h: map<string, nat>, i: nat)
    requires i < |Blocks|
    ensures |Blocks| == 14 && |RenderLines(Blocks, h)| == 41
    ensures RenderLines(Blocks, h)[3 * i] == "# " + Blocks[i].comment
    ensures i < 13 ==> RenderLines(Blocks, h)[3 * i + 2] == ""
  {
    RenderLinesShape(Blocks, h, i);
  }

  /** The first export carries the decimal text of the stored heap slot count,
      or nothing when the hash has no such key. */
  lemma FreeSlotsLine(h: map<string, nat>)
    ensures RenderLines(Blocks, h)[1] == "export " + FreeSlotsVar + "=" + Interpolate(Lookup(h, HeapKey))
    ensures HeapKey !in h ==> RenderLines(Blocks, h)[1] == "export " + FreeSlotsVar + "="
    ensures HeapKey in h ==> RenderLines(Blocks, h)[1] == "export " + FreeSlotsVar + "=" + Decimal(h[HeapKey])
  {
    RenderLinesShape(Blocks, h, 0);
    var v := Interpolate(Lookup(h, HeapKey));
    assert RenderLines(Blocks, h)[1] == ("export " + Blocks[0].variable + "=") + v;
    if HeapKey !in h {
      assert v == "";
    }
  }

  /** Every other export is blank, whatever the hash holds. */
  lemma OtherExportsBlank(h: map<string, nat>, i: nat)
    requires 1 <= i < |Blocks|
    ensures |RenderLines(Blocks, h)| == 41
    ensures RenderLines(Blocks, h)[3 * i + 1] == "export " + Blocks[i].variable + "="
  {
    RenderLinesShape(Blocks, h, i);
    assert Blocks[i].source == None;
  }
}
