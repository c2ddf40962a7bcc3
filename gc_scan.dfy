/** `String#scan` with the one fixed pattern of lib/env_mem.rb line 12,
    `:([a-zA-Z_]+)\s*=>\s*([0-9]+)`, written out as a deterministic scanner.

    A match starts at a colon. Each of the four runs (name, whitespace,
    whitespace, digits) is greedy and the pattern never has to backtrack: a
    name run is followed by whitespace or `=`, a whitespace run by `=` or a
    digit, and the digit run ends the match. So each run simply takes the
    longest stretch of its character class. */
module GcScan {
  import opened Wrappers
  import opened DecimalText

  /** `[a-zA-Z_]` */
  predicate IsNameChar(c: char) {
    'a' <= c <= 'z' || 'A' <= c <= 'Z' || c == '_'
  }

  /** Ruby's `\s`: space, tab, line feed, vertical tab, form feed, carriage return. */
  predicate IsSpace(c: char) {
    c == ' ' || '\t' <= c <= '\r'
  }

  /** The three character classes the pattern repeats. */
  datatype CharClass = NameChars | Spaces | Digits

  predicate In(p: CharClass, c: char) {
    match p
    case NameChars => IsNameChar(c)
    case Spaces => IsSpace(c)
    case Digits => IsDigit(c)
  }

  /** Every character of `s` in `a .. b` is in class `p`. */
  predicate All(s: string, a: nat, b: nat, p: CharClass) {
    b <= |s| && forall k :: a <= k < b ==> In(p, s[k])
  }

  /** A symbol name as `Hash#inspect` prints it after the colon, and as group 1 captures it. */
  predicate IsName(s: string) {
    |s| > 0 && All(s, 0, |s|, NameChars)
  }

  /** The length of the longest run of characters of class `p` that starts at `j`. */
  function Run(s: string, j: nat, p: CharClass): (n: nat)
    requires j <= |s|
    ensures j + n <= |s|
    decreases |s| - j
  {
    if j < |s| && In(p, s[j]) then 1 + Run(s, j + 1, p) else 0
  }

  /** A run holds only characters of its class and stops at the end of the
      text or at a character outside the class. */
  lemma {:induction false} RunSound(s: string, j: nat, p: CharClass)
    requires j <= |s|
    ensures All(s, j, j + Run(s, j, p), p)
    ensures j + Run(s, j, p) == |s| || !In(p, s[j + Run(s, j, p)])
    decreases |s| - j
  {
    if j < |s| && In(p, s[j]) {
      RunSound(s, j + 1, p);
    }
  }

  /** A run is determined by where it starts. */
  lemma {:induction false} RunUnique(s: string, j: nat, p: CharClass, n: nat)
    requires All(s, j, j + n, p)
    requires j + n == |s| || !In(p, s[j + n])
    ensures Run(s, j, p) == n
    decreases n
  {
    if n > 0 {
      assert In(p, s[j]);
      RunUnique(s, j + 1, p, n - 1);
    }
  }

  /** One match of the pattern, by its offsets in the scanned text: the colon
      at `start`, the name in `start + 1 .. nameEnd`, whitespace up to the
      `=>` at `arrow`, whitespace up to the digits in `digitsStart .. end`. */
  datatype Match = Match(start: nat, nameEnd: nat, arrow: nat, digitsStart: nat, end: nat)

  /** The two groups of one match, as `String#scan` yields them: the name and the digits. */
  datatype Capture = Capture(key: string, val: string)

  /** `m` is a match of the pattern in `s`, its greedy digit run ending where
      the digits end. */
  predicate IsMatch(s: string, m: Match) {
    m.start + 1 < m.nameEnd <= m.arrow && m.arrow + 2 <= m.digitsStart < m.end <= |s|
    && s[m.start] == ':'
    && All(s, m.start + 1, m.nameEnd, NameChars)
    && All(s, m.nameEnd, m.arrow, Spaces)
    && s[m.arrow] == '=' && s[m.arrow + 1] == '>'
    && All(s, m.arrow + 2, m.digitsStart, Spaces)
    && All(s, m.digitsStart, m.end, Digits)
    && (m.end == |s| || !IsDigit(s[m.end]))
  }

  /** The match attempted at position `i`, if the pattern matches there. Each
      stage below takes one element of the pattern: the colon and the name run
      here, then the whitespace, the `=>` with the whitespace after it, and the
      digit run. */
  function MatchAt(s: string, i: nat): (r: Option<Match>)
    requires i <= |s|
    ensures r.Some? ==> r.value.start == i < r.value.end <= |s|
  {
    if i < |s| && s[i] == ':' then MatchName(s, i, i + 1 + Run(s, i + 1, NameChars)) else None
  }

  /** The name run ended at `c`; it must not be empty. */
  function MatchName(s: string, i: nat, c: nat): (r: Option<Match>)
    requires i < c <= |s|
    ensures r.Some? ==> r.value.start == i < r.value.end <= |s|
  {
    if c > i + 1 then MatchArrow(s, i, c, c + Run(s, c, Spaces)) else None
  }

  /** The whitespace after the name ended at `d`, where `=>` must stand. */
  function MatchArrow(s: string, i: nat, c: nat, d: nat): (r: Option<Match>)
    requires i < c <= d <= |s|
    ensures r.Some? ==> r.value.start == i < r.value.end <= |s|
  {
    if d + 1 < |s| && s[d] == '=' && s[d + 1] == '>' then
      MatchDigits(s, i, c, d, d + 2 + Run(s, d + 2, Spaces))
    else None
  }

  /** The whitespace after `=>` ended at `f`, where the digit run must start. */
  function MatchDigits(s: string, i: nat, c: nat, d: nat, f: nat): (r: Option<Match>)
    requires i < c <= d && d + 2 <= f <= |s|
    ensures r.Some? ==> r.value.start == i < r.value.end <= |s|
  {
    var g := f + Run(s, f, Digits);
    if g > f then Some(Match(i, c, d, f, g)) else None
  }

  /** What the scanner has accepted before the digit run. */
  predicate Prefix(s: string, i: nat, c: nat, d: nat, f: nat) {
    i + 1 < c <= d && d + 2 <= f <= |s|
    && s[i] == ':' && s[d] == '=' && s[d + 1] == '>'
    && All(s, i + 1, c, NameChars) && All(s, c, d, Spaces) && All(s, d + 2, f, Spaces)
  }

  lemma DigitsSound(s: string, i: nat, c: nat, d: nat, f: nat)
    requires Prefix(s, i, c, d, f)
    ensures MatchDigits(s, i, c, d, f).Some? ==> IsMatch(s, MatchDigits(s, i, c, d, f).value)
  {
    RunSound(s, f, Digits);
  }

  lemma ArrowSound(s: string, i: nat, c: nat, d: nat)
    requires i + 1 < c <= d <= |s| && s[i] == ':'
    requires All(s, i + 1, c, NameChars) && All(s, c, d, Spaces)
    ensures MatchArrow(s, i, c, d).Some? ==> IsMatch(s, MatchArrow(s, i, c, d).value)
  {
    if d + 1 < |s| && s[d] == '=' && s[d + 1] == '>' {
      var f := d + 2 + Run(s, d + 2, Spaces);
      RunSound(s, d + 2, Spaces);
      assert MatchArrow(s, i, c, d) == MatchDigits(s, i, c, d, f);
      DigitsSound(s, i, c, d, f);
    }
  }

  lemma NameSound(s: string, i: nat, c: nat)
    requires i < c <= |s| && s[i] == ':' && All(s, i + 1, c, NameChars)
    ensures MatchName(s, i, c).Some? ==> IsMatch(s, MatchName(s, i, c).value)
  {
    if c > i + 1 {
      var d := c + Run(s, c, Spaces);
      RunSound(s, c, Spaces);
      assert MatchName(s, i, c) == MatchArrow(s, i, c, d);
      ArrowSound(s, i, c, d);
    }
  }

  /** At a colon the scanner goes on past the name run. */
  lemma {:induction false} MatchAtColon(s: string, i: nat)
    requires i < |s| && s[i] == ':'
    ensures MatchAt(s, i) == MatchName(s, i, i + 1 + Run(s, i + 1, NameChars))
  {
  }

  /** What the scanner reports at `i` is a match of the pattern. */
  lemma MatchAtSound(s: string, i: nat)
    requires i <= |s|
    ensures MatchAt(s, i).Some? ==> IsMatch(s, MatchAt(s, i).value)
  {
    if i < |s| && s[i] == ':' {
      MatchAtColon(s, i);
      RunSound(s, i + 1, NameChars);
      NameSound(s, i, i + 1 + Run(s, i + 1, NameChars));
    }
  }

  lemma DigitsComplete(s: string, m: Match)
    requires IsMatch(s, m)
    ensures MatchDigits(s, m.start, m.nameEnd, m.arrow, m.digitsStart) == Some(m)
  {
    RunUnique(s, m.digitsStart, Digits, m.end - m.digitsStart);
  }

  lemma ArrowComplete(s: string, m: Match)
    requires IsMatch(s, m)
    ensures MatchArrow(s, m.start, m.nameEnd, m.arrow) == Some(m)
  {
    assert !IsSpace(s[m.digitsStart]) by { assert IsDigit(s[m.digitsStart]); }
    RunUnique(s, m.arrow + 2, Spaces, m.digitsStart - m.arrow - 2);
    assert MatchArrow(s, m.start, m.nameEnd, m.arrow)
      == MatchDigits(s, m.start, m.nameEnd, m.arrow, m.digitsStart);
    DigitsComplete(s, m);
  }

  lemma NameComplete(s: string, m: Match)
    requires IsMatch(s, m)
    ensures MatchName(s, m.start, m.nameEnd) == Some(m)
  {
    RunUnique(s, m.nameEnd, Spaces, m.arrow - m.nameEnd);
    assert MatchName(s, m.start, m.nameEnd) == MatchArrow(s, m.start, m.nameEnd, m.arrow);
    ArrowComplete(s, m);
  }

  /** The scanner finds every match of the pattern at the position it starts. */
  lemma MatchAtComplete(s: string, m: Match)
    requires IsMatch(s, m)
    ensures MatchAt(s, m.start) == Some(m)
  {
    assert !IsNameChar(s[m.nameEnd]) by {
      if m.nameEnd < m.arrow { assert IsSpace(s[m.nameEnd]); }
    }
    RunUnique(s, m.start + 1, NameChars, m.nameEnd - m.start - 1);
    MatchAtColon(s, m.start);
    NameComplete(s, m);
  }

  /** No match contains a colon after its first character, so no match starts
      inside another. */
  lemma NoColonInside(s: string, m: Match, p: nat)
    requires IsMatch(s, m) && m.start < p < m.end
    ensures s[p] != ':'
  {
    if p < m.nameEnd {
      assert IsNameChar(s[p]);
    } else if p < m.arrow {
      assert IsSpace(s[p]);
    } else if p < m.arrow + 2 {
    } else if p < m.digitsStart {
      assert IsSpace(s[p]);
    } else {
      assert IsDigit(s[p]);
    }
  }

  /** The matches `String#scan` finds from position `i` on, left to right: where
      a match starts, the scan resumes at its end; where none does, at the
      next character. They are all matches of the pattern, in order and
      without overlap. */
  function ScanFrom(s: string, i: nat): (r: seq<Match>)
    requires i <= |s|
    decreases |s| - i
  {
    if i == |s| then []
    else match MatchAt(s, i)
      case Some(m) => [m] + ScanFrom(s, m.end)
      case None => ScanFrom(s, i + 1)
  }

  /** `ms` are matches of the pattern at or after `i`, left to right and
      without overlapping. */
  predicate Reported(s: string, i: nat, ms: seq<Match>) {
    (forall k :: 0 <= k < |ms| ==> i <= ms[k].start && IsMatch(s, ms[k]))
    && (forall k :: 0 <= k < |ms| - 1 ==> ms[k].end <= ms[k + 1].start)
  }

  /** Everything the scan reports from `i` is a match of the pattern at or
      after `i`, and the matches come left to right without overlapping. */
  lemma {:induction false} ScanSound(s: string, i: nat)
    requires i <= |s|
    ensures Reported(s, i, ScanFrom(s, i))
    decreases |s| - i
  {
    if i < |s| {
      match MatchAt(s, i)
      case Some(m) =>
        MatchAtSound(s, i);
        ScanSound(s, m.end);
        ReportedTake(s, i, m);
      case None =>
        ScanSound(s, i + 1);
        ReportedSkip(s, i);
    }
  }

  lemma ReportedTake(s: string, i: nat, m: Match)
    requires i < |s| && MatchAt(s, i) == Some(m) && m.end <= |s|
    requires Reported(s, m.end, ScanFrom(s, m.end))
    ensures Reported(s, i, ScanFrom(s, i))
  {
    MatchAtSound(s, i);
    ScanTake(s, i, m);
    ReportedCons(s, i, m, ScanFrom(s, m.end));
  }

  lemma ReportedSkip(s: string, i: nat)
    requires i < |s| && MatchAt(s, i) == None
    requires Reported(s, i + 1, ScanFrom(s, i + 1))
    ensures Reported(s, i, ScanFrom(s, i))
  {
    ScanSkip(s, i);
  }

  lemma ReportedCons(s: string, i: nat, m: Match, ms: seq<Match>)
    requires i <= m.start && IsMatch(s, m) && Reported(s, m.end, ms)
    ensures Reported(s, i, [m] + ms)
  {
    var all := [m] + ms;
    assert forall k :: 0 < k < |all| ==> all[k] == ms[k - 1];
  }

  lemma ScanSkip(s: string, i: nat)
    requires i < |s| && MatchAt(s, i) == None
    ensures ScanFrom(s, i) == ScanFrom(s, i + 1)
  {
  }

  lemma {:induction false} ScanTake(s: string, i: nat, m: Match)
    requires i < |s| && MatchAt(s, i) == Some(m)
    ensures ScanFrom(s, i) == [m] + ScanFrom(s, m.end)
  {
  }

  /** The scanner reports `m` at `i` exactly when `m` is a match of the pattern starting at `i`. */
  lemma MatchAtIff(s: string, i: nat, m: Match)
    requires i <= |s|
    ensures MatchAt(s, i) == Some(m) <==> m.start == i && IsMatch(s, m)
  {
    MatchAtSound(s, i);
    if m.start == i && IsMatch(s, m) {
      MatchAtComplete(s, m);
    }
  }

  /** The offsets of `m` lie in order inside `s`, so its groups can be cut out. */
  predicate InText(s: string, m: Match) {
    m.start < m.nameEnd <= m.digitsStart <= m.end <= |s|
  }

  predicate AllInText(s: string, ms: seq<Match>) {
    forall k :: 0 <= k < |ms| ==> InText(s, ms[k])
  }

  /** The two groups of a match, as `String#scan` returns them. */
  function CaptureOf(s: string, m: Match): Capture
    requires InText(s, m)
  {
    Capture(s[m.start + 1..m.nameEnd], s[m.digitsStart..m.end])
  }

  /** The groups of each match, in order. */
  function CapturesOf(s: string, ms: seq<Match>): seq<Capture>
    requires AllInText(s, ms)
  {
    if |ms| == 0 then [] else [CaptureOf(s, ms[0])] + CapturesOf(s, ms[1..])
  }

  lemma {:induction false} CapturesOfIndex(s: string, ms: seq<Match>, k: nat)
    requires AllInText(s, ms) && k < |ms|
    ensures |CapturesOf(s, ms)| == |ms| && CapturesOf(s, ms)[k] == CaptureOf(s, ms[k])
  {
    if k > 0 {
      CapturesOfIndex(s, ms[1..], k - 1);
    } else {
      CapturesOfLength(s, ms);
    }
  }

  lemma {:induction false} CapturesOfLength(s: string, ms: seq<Match>)
    requires AllInText(s, ms)
    ensures |CapturesOf(s, ms)| == |ms|
  {
    if |ms| > 0 {
      CapturesOfLength(s, ms[1..]);
    }
  }

  lemma ScanInText(s: string)
    ensures AllInText(s, ScanFrom(s, 0))
  {
    ScanSound(s, 0);
  }

  /** `stats.scan(/:([a-zA-Z_]+)\s*=>\s*([0-9]+)/)`: the captures of every match, in order. */
  function Scan(s: string): (r: seq<Capture>)
    ensures |r| == |ScanFrom(s, 0)|
  {
    ScanInText(s);
    CapturesOfLength(s, ScanFrom(s, 0));
    CapturesOf(s, ScanFrom(s, 0))
  }

  /** A match found at `i` ends before any later match of the pattern starts. */
  lemma NoOverlap(s: string, i: nat, first: Match, m: Match)
    requires i <= |s| && MatchAt(s, i) == Some(first)
    requires IsMatch(s, m) && i < m.start
    ensures first.end <= m.start
  {
    MatchAtSound(s, i);
    if m.start < first.end {
      NoColonInside(s, first, m.start);
    }
  }

  /** Leftmost scanning misses nothing: every match of the pattern at or after
      `i` is among those found from `i`. */
  lemma {:induction false} ScanFindsEveryMatch(s: string, i: nat, m: Match)
    requires i <= m.start && IsMatch(s, m)
    ensures m in ScanFrom(s, i)
    decreases |s| - i
  {
    if i == m.start {
      MatchAtComplete(s, m);
      ScanTake(s, i, m);
    } else {
      match MatchAt(s, i)
      case None =>
        ScanSkip(s, i);
        ScanFindsEveryMatch(s, i + 1, m);
      case Some(first) =>
        ScanTake(s, i, first);
        NoOverlap(s, i, first, m);
        ScanFindsEveryMatch(s, first.end, m);
    }
  }

  /** The scan finds exactly the matches of the pattern. */
  lemma {:induction false} ScanFindsExactlyTheMatches(s: string, m: Match)
    ensures m in ScanFrom(s, 0) <==> IsMatch(s, m)
  {
    ScanSound(s, 0);
    if IsMatch(s, m) {
      ScanFindsEveryMatch(s, 0, m);
    }
  }

  /** The captures of a match are a name and a non-empty digit run. */
  lemma CaptureOfMatch(s: string, m: Match)
    requires IsMatch(s, m)
    ensures IsName(CaptureOf(s, m).key)
    ensures |CaptureOf(s, m).val| > 0 && IsDigits(CaptureOf(s, m).val)
  {
    var c := CaptureOf(s, m);
    assert forall j :: 0 <= j < |c.key| ==> c.key[j] == s[m.start + 1 + j];
    assert forall j :: 0 <= j < |c.val| ==> c.val[j] == s[m.digitsStart + j];
  }

  /** Every capture is a name and a digit run, the two groups of a match in `s`. */
  lemma {:induction false} ScanCaptures(s: string, k: nat)
    requires k < |Scan(s)|
    ensures IsMatch(s, ScanFrom(s, 0)[k]) && Scan(s)[k] == CaptureOf(s, ScanFrom(s, 0)[k])
    ensures IsName(Scan(s)[k].key) && |Scan(s)[k].val| > 0 && IsDigits(Scan(s)[k].val)
  {
    ScanSound(s, 0);
    CapturesOfLength(s, ScanFrom(s, 0));
    CapturesOfIndex(s, ScanFrom(s, 0), k);
    CaptureOfMatch(s, ScanFrom(s, 0)[k]);
  }

  /** Positions without a colon are passed over one by one. */
  lemma {:induction false} SkipNonColons(s: string, i: nat, j: nat)
    requires i <= j <= |s|
    requires forall k :: i <= k < j ==> s[k] != ':'
    ensures ScanFrom(s, i) == ScanFrom(s, j)
    decreases j - i
  {
    if i < j {
      assert MatchAt(s, i) == None;
      ScanSkip(s, i);
      SkipNonColons(s, i + 1, j);
    }
  }

  /** The colon of `:a1=>5` starts no match: the name `a` is followed by `1`,
      which is neither whitespace nor `=`. */
  lemma BrokenColon(s: string)
    requires s == ":a1=>5, :b=>2"
    ensures MatchAt(s, 0) == None
  {
    MatchAtColon(s, 0);
    RunUnique(s, 1, NameChars, 1);
    RunUnique(s, 2, Spaces, 0);
    assert MatchName(s, 0, 2) == MatchArrow(s, 0, 2, 2);
  }

  /** The rest of `:a1=>5, :b=>2`: no colon before position 8, and a match
      from there to the end. */
  lemma BrokenColonRest(s: string)
    requires s == ":a1=>5, :b=>2"
    ensures forall k :: 1 <= k < 8 ==> s[k] != ':'
    ensures IsMatch(s, Match(8, 10, 10, 12, 13))
    ensures CaptureOf(s, Match(8, 10, 10, 12, 13)) == Capture("b", "2")
  {
  }

  /** A colon that does not begin a full match is skipped and later matches
      are still found: in `:a1=>5, :b=>2` only `b` is recognised. */
  lemma ScanSkipsBrokenMatch(s: string)
    requires s == ":a1=>5, :b=>2"
    ensures Scan(s) == [Capture("b", "2")]
  {
    BrokenColon(s);
    BrokenColonRest(s);
    ScanSkip(s, 0);
    SkipNonColons(s, 1, 8);
    var m := Match(8, 10, 10, 12, 13);
    MatchAtComplete(s, m);
    ScanTake(s, 8, m);
    assert ScanFrom(s, 13) == [];
    assert ScanFrom(s, 0) == [m];
    assert CapturesOf(s, [m]) == [CaptureOf(s, m)] + CapturesOf(s, []);
  }
}
