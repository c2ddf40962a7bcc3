/** The hash `gc_stat_to_shell` builds from the captures (lib/env_mem.rb
    lines 11-12): it starts empty and, for each `[key, val]` pair in scan
    order, stores `val.to_i` under `key`, so a later capture of a key
    overwrites an earlier one. */
module StatsHash {
  import opened Wrappers
  import opened DecimalText
  import opened GcScan

  /** Every captured value is a digit run, as group 2 of the pattern guarantees. */
  predicate Numeric(caps: seq<Capture>) {
    forall j :: 0 <= j < |caps| ==> IsDigits(caps[j].val)
  }

  /** Ruby's `hash[key]`: the stored value, or `nil`. */
  function Lookup(h: map<string, nat>, key: string): Option<nat> {
    if key in h then Some(h[key]) else None
  }

  /** The hash after the `each` block has run over `caps`. */
  function StatsHashOf(caps: seq<Capture>): map<string, nat>
    requires Numeric(caps)
    decreases |caps|
  {
    if |caps| == 0 then map[]
    else
      var last := caps[|caps| - 1];
      assert Numeric(caps[..|caps| - 1]) by {
        assert forall j :: 0 <= j < |caps| - 1 ==> caps[..|caps| - 1][j] == caps[j];
      }
      StatsHashOf(caps[..|caps| - 1])[last.key := DigitsValue(last.val)]
  }

  /** The loop at line 12, one capture at a time. */
  method BuildStatsHash(caps: seq<Capture>) returns (h: map<string, nat>)
    requires Numeric(caps)
    ensures h == StatsHashOf(caps)
    ensures forall k :: k in h <==> exists j :: 0 <= j < |caps| && caps[j].key == k
    ensures forall j :: 0 <= j < |caps| && IsLastOf(caps, caps[j].key, j) ==>
      caps[j].key in h && h[caps[j].key] == DigitsValue(caps[j].val)
  {
    h := map[];
    for i := 0 to |caps|
      invariant Numeric(caps[..i])
      invariant h == StatsHashOf(caps[..i])
    {
      assert caps[..i + 1][..i] == caps[..i];
      h := h[caps[i].key := DigitsValue(caps[i].val)];
    }
    assert caps[..|caps|] == caps;
    forall k
      ensures k in h <==> exists j :: 0 <= j < |caps| && caps[j].key == k
    {
      StoredIffCaptured(caps, k);
    }
    forall j | 0 <= j < |caps| && IsLastOf(caps, caps[j].key, j)
      ensures caps[j].key in h && h[caps[j].key] == DigitsValue(caps[j].val)
    {
      LastWins(caps, caps[j].key, j);
    }
  }

  /** Where the capture of `key` that comes last stands. */
  predicate IsLastOf(caps: seq<Capture>, key: string, j: nat) {
    j < |caps| && caps[j].key == key
    && forall j' :: j < j' < |caps| ==> caps[j'].key != key
  }

  /** A key is stored exactly when some capture has it. */
  lemma {:induction false} StoredIffCaptured(caps: seq<Capture>, key: string)
    requires Numeric(caps)
    ensures key in StatsHashOf(caps) <==> exists j :: 0 <= j < |caps| && caps[j].key == key
    decreases |caps|
  {
    if |caps| > 0 {
      var init := caps[..|caps| - 1];
      assert forall j :: 0 <= j < |init| ==> init[j] == caps[j];
      StoredIffCaptured(init, key);
      if key != caps[|caps| - 1].key && exists j :: 0 <= j < |caps| && caps[j].key == key {
        var j :| 0 <= j < |caps| && caps[j].key == key;
        assert init[j].key == key;
      }
    }
  }

  /** Last occurrence wins: the stored value is that of the last capture of the key. */
  lemma {:induction false} LastWins(caps: seq<Capture>, key: string, j: nat)
    requires Numeric(caps) && IsLastOf(caps, key, j)
    ensures key in StatsHashOf(caps) && StatsHashOf(caps)[key] == DigitsValue(caps[j].val)
    decreases |caps|
  {
    if j < |caps| - 1 {
      var init := caps[..|caps| - 1];
      assert forall i :: 0 <= i < |init| ==> init[i] == caps[i];
      LastWins(init, key, j);
    }
  }

  /** A key no capture has is absent, so `hash[key]` is `nil`. */
  lemma NeverCapturedAbsent(caps: seq<Capture>, key: string)
    requires Numeric(caps)
    requires forall j :: 0 <= j < |caps| ==> caps[j].key != key
    ensures Lookup(StatsHashOf(caps), key) == None
  {
    StoredIffCaptured(caps, key);
  }

  /** Captures of other keys leave the lookup of `key` as it was. */
  lemma {:induction false} OtherKeysIgnored(caps: seq<Capture>, more: seq<Capture>, key: string)
    requires Numeric(caps) && Numeric(more)
    requires forall j :: 0 <= j < |more| ==> more[j].key != key
    ensures Numeric(caps + more)
    ensures Lookup(StatsHashOf(caps + more), key) == Lookup(StatsHashOf(caps), key)
    decreases |more|
  {
    var all := caps + more;
    assert forall j :: 0 <= j < |all| ==> all[j] == (if j < |caps| then caps[j] else more[j - |caps|]);
    if |more| > 0 {
      var init := more[..|more| - 1];
      assert forall j :: 0 <= j < |init| ==> init[j] == more[j];
      assert all[..|all| - 1] == caps + init;
      OtherKeysIgnored(caps, init, key);
    } else {
      assert all == caps;
    }
  }

  /** The captures of a scan are always numeric: `to_i` only ever sees digits. */
  lemma ScanNumeric(s: string)
    ensures Numeric(Scan(s))
  {
    forall j | 0 <= j < |Scan(s)|
      ensures IsDigits(Scan(s)[j].val)
    {
      ScanCaptures(s, j);
    }
  }
}
