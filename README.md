# env_mem: turning a GC statistics dump into a shell script

`EnvMem.gc_stat_to_shell` (lib/env_mem.rb) reads the text of a Ruby
`GC.stat` dump. It collects every `:name=>digits` pair into a hash and
fills a fixed shell script from that hash. The script has fourteen blocks.
Each block is a `# ...` comment line and an `export RUBY_GC_...=` line, and
an empty line separates two blocks. Only the first export,
`RUBY_GC_HEAP_FREE_SLOTS`, gets a value: `stats_hash["heap_available_slots"]`.
The other thirteen are always left empty.

The project models that method in Dafny, one module per stage:

- `DecimalText` (decimal.dfy): digit strings.
  - Their base-10 value is what `String#to_i` gives for a digit run.
  - The decimal text of a natural number is what `Integer#to_s` and `#{}` give.
- `GcScan` (gc_scan.dfy): `stats.scan(/:([a-zA-Z_]+)\s*=>\s*([0-9]+)/)`.
  - It is written as a deterministic scanner. A match can only start at a colon.
  - Each part of the pattern takes the longest run of its characters. When an
    attempt fails, the scan moves on one character; after a match it goes on
    at the match's end.
  - `\s` is Ruby's: space, tab, line feed, vertical tab, form feed and carriage return.
- `StatsHash` (stats_hash.dfy): the hash the `each` block builds.
  - It is written as a method with a loop (`BuildStatsHash`) and proved equal
    to a declarative fold (`StatsHashOf`).
  - Each step stores `val.to_i` under `key`, so a later pair overwrites an earlier one.
- `ShellTemplate` (shell_template.dfy): the heredoc.
  - It is fourteen `Block` values, copied from the source, and rendered line by line.
  - `nil` interpolates as nothing; an integer interpolates as its decimal text.
- `StatDump` (stat_dump.dfy): the `{:k1=>v1, :k2=>v2}` text that `dump_to_file`
  writes with `GC.stat.inspect`. It is only used as an input shape for
  round-trip lemmas.
- `EnvMem` (env_mem.dfy): the method itself, `GcStatToShell`, and the
  end-to-end properties.
- `Wrappers` (wrappers.dfy): `Option`.

## Model

| member | source | states |
|---|---|---|
| DecimalText.DigitsValue | lib/env_mem.rb:12 | `val.to_i` on a digit run: its base-10 value, read left to right; `DecimalValue`, `LeadingZeroValue` and `StripValue` characterise it |
| DecimalText.Decimal | lib/env_mem.rb:16 | the text `#{n}` prints for a count is a non-empty digit string whose first digit is `0` only for zero itself |
| DecimalText.DecimalValue | lib/env_mem.rb:16 | reading the printed text of `n` back as base 10 gives `n` |
| DecimalText.DecimalInjective | lib/env_mem.rb:16 | two counts print the same text exactly when they are equal |
| DecimalText.StripLeadingZeros | lib/env_mem.rb:12 | dropping the leading zeros of a digit run leaves a canonical digit string |
| DecimalText.LeadingZeroValue | lib/env_mem.rb:12 | a leading `0` does not change the value `to_i` reads from a digit run |
| DecimalText.StripValue | lib/env_mem.rb:12 | dropping the leading zeros keeps the value `to_i` reads |
| DecimalText.CanonicalDecimal | lib/env_mem.rb:12 | a canonical digit string is the printed text of its own value |
| DecimalText.DecimalDropsLeadingZeros | lib/env_mem.rb:12-16 | storing `val.to_i` and printing it gives `val` without its leading zeros |
| GcScan.Run | lib/env_mem.rb:12 | a run of one character class stays inside the text |
| GcScan.RunSound | lib/env_mem.rb:12 | the run is made of characters of the class and stops at the end of the text or at a character outside it, so each quantifier is greedy |
| GcScan.RunUnique | lib/env_mem.rb:12 | any stretch of class characters that ends at such a boundary is the run, so there is only one way to take it |
| GcScan.MatchAt | lib/env_mem.rb:12 | an attempt at `i` that succeeds gives a match that starts at `i` and ends inside the text |
| GcScan.IsMatch | lib/env_mem.rb:12 | the reference definition of a match of `:([a-zA-Z_]+)\s*=>\s*([0-9]+)` at given positions, with the digit run not followed by a digit; `MatchAtIff` ties the scanner to it |
| GcScan.MatchAtSound | lib/env_mem.rb:12 | what an attempt finds is a match of the pattern: colon, name of letters and `_`, whitespace, `=>`, whitespace, digits, and no digit right after |
| GcScan.MatchAtComplete | lib/env_mem.rb:12 | every match of the pattern that starts at a position is what the attempt there finds |
| GcScan.MatchAtIff | lib/env_mem.rb:12 | the attempt at `i` finds `m` if and only if `m` is a match of the pattern starting at `i` |
| GcScan.NoColonInside | lib/env_mem.rb:12 | no colon stands strictly inside a match, so no match can start within another |
| GcScan.ScanFrom | lib/env_mem.rb:12 | `String#scan` from position `i`: the leftmost non-overlapping matches, resuming at a match's end or one character on; `ScanSound` and `ScanFindsExactlyTheMatches` characterise it |
| GcScan.ScanSound | lib/env_mem.rb:12 | everything the scan reports from `i` is a match at or after `i`; the matches come left to right and do not overlap |
| GcScan.ReportedTake | lib/env_mem.rb:12 | after a match the scan goes on at its end and keeps the order |
| GcScan.ReportedSkip | lib/env_mem.rb:12 | after a failed attempt the scan goes on one character later and keeps the order |
| GcScan.SkipNonColons | lib/env_mem.rb:12 | a stretch without a colon adds nothing to the scan |
| GcScan.NoOverlap | lib/env_mem.rb:12 | a match that starts after the position of the match found at `i` starts no earlier than where that match ends |
| GcScan.ScanFindsEveryMatch | lib/env_mem.rb:12 | every match of the pattern at or after `i` is among those the scan finds from `i` |
| GcScan.ScanFindsExactlyTheMatches | lib/env_mem.rb:12 | the scan of the whole text finds `m` if and only if `m` is a match of the pattern in it |
| GcScan.CapturesOfIndex | lib/env_mem.rb:12 | the k-th capture of a list of matches is the capture of the k-th match |
| GcScan.Scan | lib/env_mem.rb:12 | `scan` gives one `[key, val]` pair per match found |
| GcScan.CaptureOfMatch | lib/env_mem.rb:12 | the groups of a match are a name of letters and `_` and a non-empty digit run |
| GcScan.ScanCaptures | lib/env_mem.rb:12 | the k-th pair holds the two groups of the k-th match: a name and a non-empty digit run |
| GcScan.BrokenColon | lib/env_mem.rb:12 | in `:a1=>5, :b=>2`, nothing matches at the first colon, because a digit cuts the name short |
| GcScan.BrokenColonRest | lib/env_mem.rb:12 | in that text no colon stands at positions 1 to 7, and `:b=>2` at 8 is a match whose groups are `b` and `2` |
| GcScan.ScanSkipsBrokenMatch | lib/env_mem.rb:12 | scanning `:a1=>5, :b=>2` gives exactly the one pair `["b", "2"]` |
| StatsHash.Lookup | lib/env_mem.rb:16 | `hash[key]` on a hash with no default: the stored value, or nil; `NeverCapturedAbsent`, `FreeSlotsLine` and `RenderDependsOnlyOnHeap` state what follows from it |
| StatsHash.StatsHashOf | lib/env_mem.rb:11-12 | the hash after the `each` block: starting from `{}`, each pair in order stores `val.to_i` under `key`; `StoredIffCaptured` and `LastWins` characterise it |
| StatsHash.BuildStatsHash | lib/env_mem.rb:11-12 | the loop builds the fold of the pairs; its keys are the captured keys, and each holds the value of the last pair with that key |
| StatsHash.StoredIffCaptured | lib/env_mem.rb:12 | a key is stored if and only if some pair has it |
| StatsHash.LastWins | lib/env_mem.rb:12 | the stored value is the base-10 value of the last pair with that key |
| StatsHash.NeverCapturedAbsent | lib/env_mem.rb:12 | a key that no pair has looks up as nil |
| StatsHash.OtherKeysIgnored | lib/env_mem.rb:12 | pairs with other keys leave a key's lookup unchanged |
| StatsHash.ScanNumeric | lib/env_mem.rb:12 | every value the scan hands to `to_i` is a digit run |
| ShellTemplate.Blocks | lib/env_mem.rb:15-55 | the fourteen comment and variable names of the heredoc, in order, with only the first block reading `heap_available_slots` |
| ShellTemplate.RenderLines | lib/env_mem.rb:14-56 | the lines of the heredoc for a hash: per block its comment line and its export line, an empty line between blocks; `RenderLinesShape` and `TemplateFixed` characterise it |
| ShellTemplate.Render | lib/env_mem.rb:14-56 | the heredoc text: every line followed by a line feed; `RenderDependsOnlyOnHeap` characterises it |
| ShellTemplate.Interpolate | lib/env_mem.rb:16 | nil interpolates as the empty string and nothing else does; a count interpolates as a canonical digit string of that value |
| ShellTemplate.InterpolateInjective | lib/env_mem.rb:16 | two lookups interpolate the same text exactly when they are equal |
| ShellTemplate.Unlines | lib/env_mem.rb:14-56 | the heredoc text ends with a line feed |
| ShellTemplate.RenderLinesLength | lib/env_mem.rb:14-56 | `n` blocks take `3n - 1` lines |
| ShellTemplate.RenderLinesShape | lib/env_mem.rb:14-56 | block `i` is line `3i` (the comment) and `3i+1` (the export), then an empty line unless it is the last block |
| ShellTemplate.RenderLinesHead | lib/env_mem.rb:14-17 | the first block opens the text: comment, export, then an empty line if more blocks follow |
| ShellTemplate.RenderLinesLater | lib/env_mem.rb:17-56 | later blocks keep their place three lines further on |
| ShellTemplate.FixedBlocks | lib/env_mem.rb:18-55 | blocks with no interpolation give the same lines whatever the hash |
| ShellTemplate.LayoutFirst | lib/env_mem.rb:14-56 | the text is the first comment line, the first export line and an empty line, each ending in a line feed, then the rest |
| ShellTemplate.FirstBlockDecides | lib/env_mem.rb:14-56 | when the later blocks render alike, two texts are equal exactly when the values after the first `=` are |
| ShellTemplate.RenderDependsOnlyOnHeap | lib/env_mem.rb:14-56 | two hashes give the same text if and only if they agree on the lookup of `heap_available_slots` |
| ShellTemplate.TemplateFixed | lib/env_mem.rb:14-56 | the text has 14 blocks in 41 lines; comment `i` is line `3i`; empty lines separate the blocks |
| ShellTemplate.FreeSlotsLine | lib/env_mem.rb:16 | line 1 is `export RUBY_GC_HEAP_FREE_SLOTS=` followed by the decimal text of the stored heap count, or by nothing when there is none |
| ShellTemplate.FreeSlotsSecondLine | lib/env_mem.rb:14-16 | the returned text opens with the first comment line and the FREE_SLOTS export, neither holding a line feed and each ended by one, so the export is the second line of the text |
| ShellTemplate.OtherExportsBlank | lib/env_mem.rb:19-55 | each of the other 13 exports is `export VAR=` with nothing after the `=`, whatever the hash |
| StatDump.Inspect | lib/env_mem.rb:7 | `GC.stat.inspect` for symbol keys and integer values: `{:k1=>v1, :k2=>v2}`; `DumpRoundTrip` reads it back |
| StatDump.Expected | lib/env_mem.rb:7 | a dump should give one pair per entry |
| StatDump.ExpectedIndex | lib/env_mem.rb:7 | the i-th expected pair is the key of entry `i` with the decimal text of its value |
| StatDump.EntryIsMatch | lib/env_mem.rb:7-12 | an entry `:key=>value` followed by a non-digit is a match of the pattern whose groups are its key and its printed value |
| StatDump.ScanEntry | lib/env_mem.rb:7-12 | an entry is reported as one match, and the scan goes on right after it |
| StatDump.ScanSeparator | lib/env_mem.rb:7-12 | the `, ` between two entries adds nothing to the scan |
| StatDump.ScanClose | lib/env_mem.rb:7-12 | nothing is found at the closing brace |
| StatDump.ScanOpen | lib/env_mem.rb:7-12 | nothing is found at the opening brace |
| StatDump.StepEntry | lib/env_mem.rb:7-12 | the first remaining entry is one match, and the scan goes on where the next entry or the closing brace starts |
| StatDump.ScanBody | lib/env_mem.rb:7-12 | scanning the entries of a dump finds one match per entry, in order, with that entry's key and value |
| StatDump.DumpRoundTrip | lib/env_mem.rb:7-12 | scanning `{:k1=>v1, ...}` gives exactly the pairs `[k_i, v_i.to_s]`, in order, one per entry |
| EnvMem.HashOf | lib/env_mem.rb:11-12 | `stats_hash` once line 12 has run: the fold of the scanned pairs; `HashKeys` characterises it |
| EnvMem.GcStatToShell | lib/env_mem.rb:10-57 | for every input string the method returns the rendered template of the hash the scan builds, ending in a line feed |
| EnvMem.HashKeys | lib/env_mem.rb:11-12 | the keys of `stats_hash` are exactly the names of the pairs in the text, and each holds `to_i` of the last pair with that name |
| EnvMem.FreeSlotsFromLastPair | lib/env_mem.rb:12-16 | the FREE_SLOTS export carries the digits of the last `heap_available_slots` pair, leading zeros dropped |
| EnvMem.FreeSlotsBlank | lib/env_mem.rb:12-16 | with no `heap_available_slots` pair the FREE_SLOTS export is blank |
| EnvMem.ShellDependsOnlyOnHeap | lib/env_mem.rb:10-57 | two inputs give the same script if and only if their hashes agree on `heap_available_slots`, including both lacking it |
| EnvMem.NoPairsAllBlank | lib/env_mem.rb:11-55 | a text with no pair gives the empty hash and every one of the 14 exports blank |
| EnvMem.EmptyDump | lib/env_mem.rb:7-12 | the dump of an empty table is `{}` and holds no pair |
| EnvMem.DumpHash | lib/env_mem.rb:7-12 | reading back a dump stores the value of the last entry of each key |
| EnvMem.DumpMissingKey | lib/env_mem.rb:7-12 | reading back a dump stores no key that no entry has |
| EnvMem.DumpHashIsTable | lib/env_mem.rb:7-12 | with distinct keys, reading back a dump gives the original table: the same keys, each with its value |
| EnvMem.DumpFreeSlots | lib/env_mem.rb:7-16 | the script made from a dump exports the decimal text of the last `heap_available_slots` entry |
| EnvMem.DumpFreeSlotsBlank | lib/env_mem.rb:7-16 | the script made from a dump with no `heap_available_slots` entry has a blank FREE_SLOTS export |

## Left out

- `dump_to_file` (lib/env_mem.rb:6-8): opening and writing the file, and querying the live collector, are I/O. Only the shape of the text it writes is modelled, as `StatDump.Inspect`.
- `StatDump.Inspect`: models `Hash#inspect` for symbol keys that print as a bare `:name` and for integer values, in the `{:k=>v, ...}` layout. Other key kinds are not modelled, and neither is the `{k: v}` layout that newer Ruby versions print.
- `String#scan` and `Regexp` in general: only the one fixed pattern is modelled, as a hand-written scanner.
- `String#to_i` is modelled only on digit runs. `BuildStatsHash` and `StatsHashOf` require every value to be a digit run; `StatsHash.ScanNumeric` proves that this always holds for what the scan produces.
- Text is `seq<char>`. Encodings are not modelled, and neither is the `ArgumentError` that `scan` raises on a string with invalid bytes.
- A non-string argument (for example `nil`, which has no `scan` method) is ruled out by the parameter type.
- The value ranges written in the comments at lib/env_mem.rb:27-33 are documentation only. The code checks nothing, so there is nothing to model.
- `require "env_mem/version"` (lib/env_mem.rb:1) has no logic.
- The returned string's identity and mutability are not modelled; the result is a value.
