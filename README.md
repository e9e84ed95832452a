# M3U playlist filter

A model, in Dafny, of the playlist filter of the IPTV playlist scripts in
this repository. The filter takes the text of an extended-M3U playlist and a
list of excluded group titles. It drops every channel whose `#EXTINF:` line
carries an excluded `group-title`, and writes the rest back. The filter
appears three times, with different rules:

- `update_playlist.js` `processPlaylist` keeps the header and every line it
  does not drop verbatim. It trims the joined text and ends it with one
  newline (module `UpdatePlaylist`).
- `upd_list.js` `processPlaylist` rebuilds the playlist:
  - It keeps the trimmed header followed by a blank line.
  - It keeps each kept channel as a block: the comma-fixed `#EXTINF:` line,
    the address line if there is one, and a blank separator.
  - It drops blank lines and every other comment.
  - It collapses the final run of newlines into one (module `UpdList`).
- `clean_existing_playlists.js` `processLocalPlaylist` keeps every line.
  It applies the comma fix to the `#EXTINF:` lines and counts the lines the
  fix changed (module `CleanExisting`).

Shared modules:

- `Text` has the JavaScript string operations the scripts use: `trim`,
  `trimEnd`, `toLowerCase`, `startsWith`, and `split`/`join` on `'\n'`.
- `M3u` has the line vocabulary:
  - the `#EXTM3U` and `#EXTINF:` tests;
  - the `group-title` scanner, a leftmost match of
    `/group-title=["']([^"']+)["']/i`, or with `*` for the two scripts that
    use `*`;
  - the comma fix `replace(/\s+,/g, ',')`;
  - the end-of-text rewrite `replace(/\n+$/, '\n')`.
- `Exclusions` holds the two ways the scripts normalise the exclusion
  argument:
  - Filtering: non-strings and blank strings are dropped. This is the way
    of `update_playlist.js` and `upd_list.js`.
  - Element-wise: a non-string entry throws a `TypeError`. This is the way
    of `clean_existing_playlists.js`.

Each filter has the same layout:

- A non-recursive `LineStep` gives what one turn of the source's `while`
  loop emits, removes and counts, and where it moves on to.
- A recursive specification function (`Filter`, `Restructure`/`Output`,
  `Clean`) strings the turns together.
- An imperative method runs the loop as the script does. It is proved equal
  to the specification function.
- Lemmas state what the filter promises about the specification function.

Each loop method takes the drop rule twice:

- as the list of normalised exclusions, which the loop tests as the script
  does;
- as a ghost predicate `drop` that the specification functions use.

A `requires` ties the two together.

## Model

| member | source | states |
|---|---|---|
| Text.TrimFacts | update_playlist.js:112 | `trim` leaves no whitespace at either end. It leaves nothing exactly when the string is all whitespace |
| Text.TrimStartFacts | upd_list.js:60 | `trimStart` removes exactly the leading whitespace: what it returns is a suffix, and everything before it is whitespace |
| Text.TrimEndFacts | upd_list.js:66 | `trimEnd` removes exactly the trailing whitespace: what it returns is a prefix, and everything after it is whitespace |
| Text.TrimIdempotent | upd_list.js:60 | trimming twice is trimming once |
| Text.LowerTrimCommute | upd_list.js:82 | `toLowerCase().trim()` and `trim().toLowerCase()` agree, so the two scripts normalise group values alike |
| Text.NormalFormIsFixed | update_playlist.js:59 | a normalised exclusion normalises to itself |
| Text.Split | update_playlist.js:66 | `split('\n')` gives at least one piece and no piece holds a newline |
| Text.JoinSplit | update_playlist.js:66 | joining the split lines with `'\n'` gives the text back |
| Text.SplitJoin | upd_list.js:118 | splitting lines that hold no newline, once joined, gives the lines back |
| Text.SplitTerminated | update_playlist.js:66 | splitting the joined lines with a final newline gives the lines back and one empty piece after them |
| Text.TrimKeepsPrefix | update_playlist.js:82 | a tag with no whitespace that starts a line still starts it after `trim` and after `trimEnd` |
| M3u.HeaderIsNotInfo | update_playlist.js:75-82 | no line is both an `#EXTM3U` header and an `#EXTINF:` line |
| M3u.InfoTagSeen | upd_list.js:75 | a line that starts with `#EXTINF:` passes both the `trim()` test and the `trimEnd()` test, and is not a header |
| M3u.GroupTitle | update_playlist.js:87 | no value is found exactly when no position of the line matches. A value holds no quote, and with `+` it is non-empty |
| M3u.LeftmostMatch | upd_list.js:79 | the match found is the leftmost one: no earlier position matches |
| M3u.GroupValueAt | update_playlist.js:87 | a capture at a position exists only where the attribute name stands there. It holds no quote, and with `+` it is non-empty; `M3u.CaptureAt` ties it to the line |
| M3u.CaptureAt | update_playlist.js:87 | a capture at a position means the attribute name (in any case) stands there, followed by a quote, the captured text itself and a closing quote; with `+` the capture is non-empty |
| M3u.NoMatchBefore | update_playlist.js:87 | no match starts before the first `g`/`G` of the line |
| M3u.ValueAt | upd_list.js:79 | where the attribute in any case, a quote, a quote-free value and a quote stand, the capture is that value |
| M3u.GroupTitleOf | clean_existing_playlists.js:37 | a line `p group-title="v" t` where no `g`/`G` precedes the attribute yields the value `v` |
| M3u.FixCommasHasNoSpaceBeforeComma | upd_list.js:96 | after the fix no whitespace stands directly before a comma |
| M3u.FixCommasKeepsCleanLine | clean_existing_playlists.js:54 | a line with no whitespace before a comma is left unchanged |
| M3u.FixCommasChangesIff | clean_existing_playlists.js:54-58 | the fix changes a line exactly when some whitespace stands before a comma |
| M3u.FixCommasIdempotent | clean_existing_playlists.js:54 | fixing twice is fixing once |
| M3u.FixCommasDeletesOnlySpace | upd_list.js:96 | the fix deletes only whitespace: every character that is not whitespace, commas included, is kept in order; which whitespace goes is stated by `M3u.FixCommasIsUnpadded` |
| M3u.FixCommasKeepsPrefix | upd_list.js:96 | a prefix without whitespace passes through the fix unchanged |
| M3u.FixCommasKeepsCleanPrefix | upd_list.js:96 | a prefix with no whitespace before a comma and not ending in whitespace passes through the fix unchanged, blanks inside it included, and the rest is fixed on its own |
| M3u.FixLastGap | clean_existing_playlists.js:54 | a clean prefix followed by ` ,` and a clean rest loses exactly that blank, so `#EXTINF:-1 tvg-id="x" group-title="News" ,Ch` keeps the blanks between its attributes |
| M3u.FixCommasIsUnpadded | clean_existing_playlists.js:54 | the fix equals the character-wise reference `Unpadded`: a character is deleted exactly when it is whitespace and only whitespace stands between it and a comma; every other character, whitespace included, stays in order |
| M3u.FixCommasKeepsLast | upd_list.js:96 | the fix keeps a final character that is not whitespace |
| M3u.FixCommasAddsNoNewline | upd_list.js:96 | the fix puts no newline into a line that has none |
| M3u.FixOneGap | clean_existing_playlists.js:54 | a line whose only whitespace before a comma is one blank loses exactly that blank |
| M3u.DropTrailingNewlines | upd_list.js:118 | the result is a prefix, does not end in a newline, and only newlines were cut |
| M3u.CollapseTrailingNewlines | upd_list.js:118 | text not ending in a newline is unchanged. Otherwise the final run of newlines becomes exactly one newline and the rest of the text is kept |
| M3u.ChannelSeen | update_playlist.js:82 | how each filter sees a well-formed channel's lines |
| M3u.ChannelLinesOneLine | update_playlist.js:66 | the lines of well-formed channels hold no newline |
| M3u.ChannelLinesCons | update_playlist.js:96-106 | the lines of a run of channels start with the first channel's `#EXTINF:` line and address, and the rest of the run follows |
| M3u.PlaylistLines | update_playlist.js:66 | the text of an optional header and well-formed channels, ending in a newline, splits into those lines and one empty piece |
| M3u.Survivors | update_playlist.js:96-106 | the channels a rule keeps are at most as many as the channels |
| M3u.TaggedFacts | clean_existing_playlists.js:37 | the line `#EXTINF:group-title="v"` has the group value `v` under both scanners (under `+` when `v` is non-empty) and is an `#EXTINF:` line |
| M3u.TaggedFix | clean_existing_playlists.js:54 | the fix turns `group-title="a ,b"` into `group-title="a,b"` |
| Exclusions.NormalBlank | update_playlist.js:58-59 | a normal form is blank exactly when its string is blank, and normalising is idempotent |
| Exclusions.NormalKeepsLength | clean_existing_playlists.js:39 | normalising a string with text at both ends keeps its length |
| Exclusions.FilterEntries | upd_list.js:44-46 | a group title is in the filtered list exactly when a non-blank string entry normalises to it |
| Exclusions.Normalize | update_playlist.js:53-60 | a group title is excluded exactly when a non-blank supplied string normalises to it. Any other argument excludes nothing |
| Exclusions.NormalizeGivesNormalForms | update_playlist.js:57-59 | every entry of the filtered list is non-blank and in normal form |
| Exclusions.MapEntries | clean_existing_playlists.js:7 | mapping throws exactly when some entry is not a string. Otherwise the result has one normal form per entry, in order |
| Exclusions.NormalizeAll | clean_existing_playlists.js:6-8 | throws exactly for an array with a non-string entry. Otherwise it excludes the normal form of every supplied string, blank or not, with one entry per string |
| Exclusions.BlankCategory | clean_existing_playlists.js:8 | a blank string excludes nothing when filtered, but gives the entry `''` when mapped element-wise |
| Exclusions.NormalizationsAgree | upd_list.js:40-47 | when every entry is a non-blank string, the two normalisations exclude the same titles |
| UpdatePlaylist.LineStep | update_playlist.js:71-107 | each turn of the loop moves on by one or two lines |
| UpdatePlaylist.FilterLines | update_playlist.js:66-107 | the loop's kept lines and removed count are exactly those of the specification `Filter` |
| UpdatePlaylist.Turn | update_playlist.js:72-106 | one turn of the loop: the header in first place is kept; an excluded `#EXTINF:` line goes with the next line and counts one; any other line is kept |
| UpdatePlaylist.ShouldSkip | update_playlist.js:83-94 | the skip flag is set exactly when the list is non-empty and the line's first non-empty `group-title`, normalised, is in it |
| UpdatePlaylist.ProcessPlaylist | update_playlist.js:51-112 | the written text is the kept lines joined and trimmed, plus one newline. It has no whitespace at either end before that newline. The removed count is at most the number of `#EXTINF:` lines. An empty exclusion list gives back the trimmed input |
| UpdatePlaylist.FilterLength | update_playlist.js:96-106 | kept lines plus twice the removed count cover the input, with at most one line to spare at the end |
| UpdatePlaylist.HeaderStaysFirst | update_playlist.js:74-79 | a header in first place is kept and stays first |
| UpdatePlaylist.KeptInOrder | update_playlist.js:104-106 | the kept lines are input lines, unchanged, in their order |
| UpdatePlaylist.NoDroppedLineKept | update_playlist.js:85-101 | for any rule that never drops a header, no kept line is one the rule drops |
| UpdatePlaylist.NoExcludedLineKept | update_playlist.js:85-101 | no kept line is an excluded `#EXTINF:` line |
| UpdatePlaylist.NothingDroppedKeepsAll | update_playlist.js:104-106 | when no line is dropped, every line is kept and nothing is counted |
| UpdatePlaylist.EmptyListKeepsText | update_playlist.js:85 | with an empty list the output is the trimmed input with one newline, and nothing is removed |
| UpdatePlaylist.StepCount | update_playlist.js:99 | a turn counts a removal only at an `#EXTINF:` line |
| UpdatePlaylist.RemovedAtMostDropped | update_playlist.js:96-100 | for a rule that drops only `#EXTINF:` lines, the removed count is at most the number of those lines |
| UpdatePlaylist.RemovedAtMostInfoLines | update_playlist.js:96-100 | the removed count is at most the number of `#EXTINF:` lines |
| UpdatePlaylist.Idempotent | update_playlist.js:71-107 | filtering the kept lines again keeps all of them and removes nothing |
| UpdatePlaylist.ChannelStep | update_playlist.js:96-106 | on a channel, the pass either drops both lines and counts one, or keeps both |
| UpdatePlaylist.AddressKept | update_playlist.js:82-102 | a channel's address line is never excluded |
| UpdatePlaylist.AllAddressesKept | update_playlist.js:82-102 | the rule keeps the address line of every well-formed channel of a run |
| UpdatePlaylist.FirstChannel | update_playlist.js:96-106 | at the first channel of a run, the pass drops both lines and counts one, or keeps both, and the rest of the run starts two lines on |
| UpdatePlaylist.ChannelCount | update_playlist.js:96-106 | adding one channel in front of a run adds it to the survivors when it is kept and to the count when it is dropped |
| UpdatePlaylist.TailKept | update_playlist.js:104-106 | lines that are not `#EXTINF:` lines are all kept and count nothing |
| UpdatePlaylist.ChannelsFilteredFrom | update_playlist.js:71-107 | on a run of well-formed channels followed by lines that are not `#EXTINF:` lines, the pass keeps exactly the channels the rule keeps and every trailing line. It counts the other channels |
| UpdatePlaylist.HeaderKept | update_playlist.js:74-79 | a header in first place is kept and the loop goes on at the next line |
| UpdatePlaylist.ChannelsFiltered | update_playlist.js:71-107 | an optional header, well-formed channels and trailing lines that are not `#EXTINF:` lines come out as the header, the surviving channels and the trailing lines. The removed count is the number of dropped channels |
| UpdatePlaylist.PlaylistFiltered | update_playlist.js:66-107 | the same for the text of such a playlist ending in a newline, split as the script splits it, with the script's rule: the empty piece after the last newline is kept |
| UpdList.AddressAfterOut | upd_list.js:102-108 | after a kept `#EXTINF:` line at most one line is emitted. When there is one, it is non-empty, not a comment, does not end in whitespace and holds no newline |
| UpdList.LineStep | upd_list.js:65-115 | each turn of the loop moves on by one or two lines |
| UpdList.RestructureLines | upd_list.js:58-115 | the header handling and the loop produce exactly the specification `Output` |
| UpdList.Channels | upd_list.js:65-115 | from any start index, the loop appends exactly what `Restructure` keeps and counts what it removes |
| UpdList.Turn | upd_list.js:66-114 | one turn of the loop: a blank line, a comment other than `#EXTINF:` or a stray line emits nothing and moves on by one; an `#EXTINF:` line is handled with the line after it |
| UpdList.Channel | upd_list.js:75-112 | an `#EXTINF:` turn: an excluded line goes with the next line and counts one; a kept one emits its fixed line, the address, and a blank line |
| UpdList.ShouldSkip | upd_list.js:76-87 | the skip flag is set exactly when the line's first `group-title` value, normalised, is in the list |
| UpdList.PassOver | upd_list.js:68-72 | a blank line, a comment or any other non-`#EXTINF:` line emits nothing and changes nothing |
| UpdList.ProcessPlaylist | upd_list.js:39-118 | the written text is the restructured lines joined with `'\n'`; the final collapse changes nothing. It is empty or ends in exactly one newline. The removed count is at most the number of `#EXTINF:` lines |
| UpdList.TaggedIsInfo | upd_list.js:75 | a line whose `trimEnd` starts with `#EXTINF:` starts with it itself, is an `#EXTINF:` line and is not a header |
| UpdList.FixKeepsInfoTag | upd_list.js:96 | the comma fix keeps the `#EXTINF:` tag |
| UpdList.FixedInfoOut | upd_list.js:96-99 | an emitted `#EXTINF:` line starts with the tag, has no whitespace before a comma or at its end, and holds no newline |
| UpdList.BlockShape | upd_list.js:99-111 | an emitted `#EXTINF:` line, an optional address line and a blank line form one channel block, with no newline inside a line |
| UpdList.StepShape | upd_list.js:95-111 | each turn emits nothing or one channel block |
| UpdList.RestructureShape | upd_list.js:65-115 | the loop's output is a run of channel blocks without newlines inside lines |
| UpdList.OutputShape | upd_list.js:58-115 | when the input starts with a header, the output is that header trimmed, a blank line, then channel blocks. Otherwise it is channel blocks only. No output line holds a newline |
| UpdList.BlocksEnd | upd_list.js:110-111 | a run of blocks ends with a blank line after a non-blank one |
| UpdList.StructuredEnd | upd_list.js:110-111 | the whole output ends with a blank line after a non-blank one |
| UpdList.CollapseChangesNothing | upd_list.js:117-118 | on the structured output the `\n+$` rewrite changes nothing. The text is empty or ends in exactly one newline |
| UpdList.StepCount | upd_list.js:85 | a turn counts a removal only at an `#EXTINF:` line |
| UpdList.RemovedAtMost | upd_list.js:83-86 | the loop's removed count is at most the number of `#EXTINF:` lines |
| UpdList.RemovedAtMostInfoLines | upd_list.js:83-86 | the script's removed count is at most the number of `#EXTINF:` lines |
| UpdList.StepKeepsInfos | upd_list.js:89-99 | with a stable rule, a turn emits no `#EXTINF:` line the rule drops |
| UpdList.KeptInfosSurvive | upd_list.js:89-99 | with a stable rule, no emitted `#EXTINF:` line is one the rule drops |
| UpdList.OutputInfosSurvive | upd_list.js:58-115 | the same for the whole output, header included |
| UpdList.KeptInfoStep | upd_list.js:96-111 | a kept, already-fixed `#EXTINF:` line is emitted as it is, with its address and a blank line |
| UpdList.ShortBlockStep | upd_list.js:102-111 | an emitted block without an address passes through a second run unchanged |
| UpdList.LongBlockStep | upd_list.js:102-111 | an emitted block with an address passes through a second run unchanged |
| UpdList.BlocksAreFixed | upd_list.js:65-115 | a run of blocks whose `#EXTINF:` lines the rule keeps passes through the loop unchanged, with nothing removed |
| UpdList.ShortBlockIsFixed | upd_list.js:65-115 | the same, for a run starting with a block without an address |
| UpdList.LongBlockIsFixed | upd_list.js:65-115 | the same, for a run starting with a block with an address |
| UpdList.StructuredIsFixed | upd_list.js:58-115 | a structured output whose `#EXTINF:` lines the rule keeps passes through the script unchanged |
| UpdList.Idempotent | upd_list.js:53-118 | with a stable rule, running the pass on the text it writes gives the same lines and removes nothing |
| UpdList.EmptyListIdempotent | upd_list.js:53-118 | with an empty list, a second run changes nothing |
| UpdList.ChannelStep | upd_list.js:75-114 | on a channel, the loop drops both lines and counts one, or emits the fixed `#EXTINF:` line, the trimmed address and a blank line |
| UpdList.ChannelCount | upd_list.js:75-114 | adding one channel in front of a run adds its block when it is kept and one to the count when it is dropped |
| UpdList.NoInfoEmitsNothing | upd_list.js:68-72 | lines that are not `#EXTINF:` lines after `trimEnd` emit nothing and count nothing |
| UpdList.FirstChannel | upd_list.js:75-114 | at the first channel of a run, the loop drops or emits it, and the rest of the run starts two lines on |
| UpdList.ChannelsRestructuredFrom | upd_list.js:65-115 | on a run of well-formed channels followed by lines that are not `#EXTINF:` lines, the loop emits one block per channel the rule keeps and nothing else. It counts the other channels |
| UpdList.ChannelsRestructured | upd_list.js:58-115 | an optional header, well-formed channels and trailing lines that are not `#EXTINF:` lines come out as the trimmed header and a blank line, then the block of each surviving channel. The removed count is the number of dropped channels |
| UpdList.PlaylistRestructured | upd_list.js:53-115 | the same for the text of such a playlist ending in a newline, split as the script splits it, with the script's rule |
| UpdList.OneInfoBlock | upd_list.js:75-114 | an `#EXTINF:` line followed by a blank line is removed or emitted fixed with a blank line, as the rule says |
| UpdList.OneInfoLine | upd_list.js:53-115 | the same for the text holding that one line |
| UpdList.TaggedVerdict | upd_list.js:79-84 | the rule drops that line exactly when the normal form of `v` is in the list |
| UpdList.TaggedVerdicts | upd_list.js:79-84 | with `a,b` excluded, the line with `"a ,b"` is kept and the line with `"a,b"` is removed |
| UpdList.SecondPassCanRemove | upd_list.js:53-118 | a first run keeps the channel `"a ,b"` and writes it as `"a,b"`. A second run with the same list, reading that text, removes it |
| CleanExisting.LineStep | clean_existing_playlists.js:20-68 | each turn of the loop moves on by one or two lines |
| CleanExisting.CleanLines | clean_existing_playlists.js:14-68 | the loop's kept lines, removed count and fixed count are exactly those of the specification `Clean` |
| CleanExisting.Turn | clean_existing_playlists.js:21-67 | one turn: the header in first place is kept; an excluded `#EXTINF:` line goes with the next line and counts one removal; a kept one is fixed and counted when the fix changed it; any other line is kept |
| CleanExisting.ShouldSkip | clean_existing_playlists.js:32-45 | the skip flag is set exactly when the list is non-empty and the line's first `group-title` value, normalised, is in it |
| CleanExisting.ProcessLocalPlaylist | clean_existing_playlists.js:4-70 | throws exactly when the array holds a non-string. Otherwise it writes the cleaned lines joined, trimmed and ended with one newline, with both counts. Removed plus fixed is at most the number of `#EXTINF:` lines |
| CleanExisting.RepairedLinesFacts | clean_existing_playlists.js:54-66 | a repaired line equals its input line exactly when that line is not an `#EXTINF:` line or has no whitespace before a comma. A repaired `#EXTINF:` line has no whitespace before a comma, keeps every non-whitespace character in order, and is `Unpadded` of the input: exactly the whitespace from which only whitespace leads to a comma is deleted |
| CleanExisting.StepKeepsRepaired | clean_existing_playlists.js:47-67 | a turn either keeps the repaired line it is at, or drops it with the next line, counting one |
| CleanExisting.KeptInOrder | clean_existing_playlists.js:60-67 | the kept lines are repaired input lines in their order |
| CleanExisting.NothingDroppedRepairsAll | clean_existing_playlists.js:36 | when no line is dropped, every line is kept, repaired, and nothing is removed |
| CleanExisting.FixOnlyMode | clean_existing_playlists.js:36-66 | with an empty list nothing is removed and every line is kept, repaired |
| CleanExisting.BlankEntryRemovesBlankGroups | clean_existing_playlists.js:36-43 | a blank exclusion string removes every channel whose `group-title` is blank |
| CleanExisting.StepFixed | clean_existing_playlists.js:54-58 | a turn counts a fix exactly when it keeps an `#EXTINF:` line with whitespace before a comma |
| CleanExisting.StepCount | clean_existing_playlists.js:42-57 | a turn counts a removal or a fix only at an `#EXTINF:` line |
| CleanExisting.CountsAtMostInfoLines | clean_existing_playlists.js:42-57 | removed plus fixed is at most the number of `#EXTINF:` lines |
| CleanExisting.KeptInfosClean | clean_existing_playlists.js:54-60 | no kept `#EXTINF:` line has whitespace before a comma |
| CleanExisting.KeptInfosSurvive | clean_existing_playlists.js:36-60 | with a stable rule, no kept `#EXTINF:` line is one the rule drops |
| CleanExisting.CleanLineStep | clean_existing_playlists.js:30-62 | a line that is not a dropped or unclean `#EXTINF:` line is kept as it is |
| CleanExisting.CleanLinesAreFixed | clean_existing_playlists.js:20-68 | lines whose `#EXTINF:` lines are clean and kept go through unchanged, with no removal and no fix |
| CleanExisting.SecondPass | clean_existing_playlists.js:20-68 | with a stable rule, re-cleaning the kept lines keeps every one of them unchanged and counts nothing |
| CleanExisting.FixOnlySecondPass | clean_existing_playlists.js:36-58 | with an empty list, re-cleaning the kept lines changes nothing |
| CleanExisting.OneInfoLine | clean_existing_playlists.js:30-62 | on a one-line playlist with an `#EXTINF:` line, the line is removed or fixed as the rule says |
| CleanExisting.TaggedVerdicts | clean_existing_playlists.js:37-43 | with `a,b` excluded, the line with `"a ,b"` is kept and the line with `"a,b"` is removed |
| CleanExisting.SecondPassCanRemove | clean_existing_playlists.js:36-58 | a first run keeps and fixes the channel `"a ,b"`. A second run with the same list removes it |
| CleanExisting.AllSeenAsChannels | clean_existing_playlists.js:31 | the loop sees every well-formed channel as an `#EXTINF:` line that is not a header, followed by a line that is not an `#EXTINF:` line |
| CleanExisting.ChannelStep | clean_existing_playlists.js:30-67 | on a channel, the loop drops both lines and counts one removal, or keeps the fixed `#EXTINF:` line and the address, counting a fix when the line had whitespace before a comma |
| CleanExisting.DroppedInfoStep | clean_existing_playlists.js:47-50 | a dropped `#EXTINF:` line goes with the next line and counts one removal |
| CleanExisting.KeptInfoStep | clean_existing_playlists.js:53-62 | a kept `#EXTINF:` line is fixed, and counted when it had whitespace before a comma |
| CleanExisting.OtherLineStep | clean_existing_playlists.js:65-67 | any other line past the first is kept as it is |
| CleanExisting.ChannelCount | clean_existing_playlists.js:30-67 | adding one channel in front of a run adds it, repaired, when it is kept, one removal when it is dropped, and one fix when it is kept unclean |
| CleanExisting.PlainLinesKept | clean_existing_playlists.js:65-67 | lines that are not `#EXTINF:` lines are kept as they are and count nothing |
| CleanExisting.FirstChannel | clean_existing_playlists.js:30-67 | at the first channel of a run, the loop drops or keeps it, and the rest of the run starts two lines on |
| CleanExisting.ChannelsCleanedFrom | clean_existing_playlists.js:20-68 | on a run of well-formed channels followed by lines that are not `#EXTINF:` lines, the loop keeps exactly the channels the rule keeps, repaired, and every trailing line. It counts the other channels as removed and the unclean survivors as fixed |
| CleanExisting.HeaderKept | clean_existing_playlists.js:23-28 | a header in first place is kept as it is |
| CleanExisting.ChannelsCleaned | clean_existing_playlists.js:20-68 | an optional header, well-formed channels and trailing lines that are not `#EXTINF:` lines come out as the header, each surviving channel with its `#EXTINF:` line fixed and its address, and the trailing lines. The removed count is the number of dropped channels, the fixed count the number of unclean survivors |
| CleanExisting.PlaylistCleaned | clean_existing_playlists.js:14-68 | the same for the text of such a playlist ending in a newline, split as the script splits it, with the script's rule |

## Left out

- Downloading (`downloadFile`, the HTTP client, its TLS settings, status check and `#EXTM3U` body check), file reads and writes, `path.resolve`, console output and the `main` drivers that loop over the configured playlists are I/O. The models take the playlist text as a parameter and return the text that would be written.
- The `try`/`catch` around the download and write only reports errors. No error reaches the filter, so there is nothing to model.
- Text.LowerChar: `toLowerCase` is modelled for ASCII, Latin-1 and basic Cyrillic letters only. Any other letter is left as it is: for example the Ukrainian `Ґ` (U+0490) is not lower-cased, and neither are Greek letters or the mappings that change the length of a string. A group title or an exclusion holding such a letter may therefore compare differently in the model and in the script. Strings are sequences of code points rather than UTF-16 code units.
- The ghost `drop` parameter of the loop methods is there for the specification only; the source has a single list.
- UpdList.Idempotent: proved only for a rule that keeps every kept `#EXTINF:` line after the comma fix, because the script is not idempotent without that (see below).
- CleanExisting.SecondPass: proved only for a rule that keeps every kept `#EXTINF:` line after the comma fix, for the same reason; CleanExisting.SecondPassCanRemove shows the failure.
- CleanExisting.SecondPass: states that re-cleaning the kept lines changes nothing. A second run of the script reads the written text instead, which is the kept lines joined, trimmed and ended with one newline (clean_existing_playlists.js:70). The trim can cut leading blank lines, trailing blank lines and whitespace at either end of the text; that text-level statement is not proved. CleanExisting.FixOnlySecondPass has the same gap.
- UpdatePlaylist.Idempotent: states that re-filtering the kept lines keeps all of them. A second run of the script reads the written text, which is the kept lines joined, trimmed and ended with one newline (update_playlist.js:109-112); that text-level statement is not proved.
- The rule of `upd_list.js` and `clean_existing_playlists.js` is not proved stable for any list other than the empty one. In particular, the model does not show that a list whose entries hold no comma is stable, although the comma fix only deletes whitespace before a comma.

## Behaviour worth knowing

The model follows the code in each of these.

- **The line after an excluded channel.** All three scripts skip the line after an excluded `#EXTINF:` line, whatever that line is: `i += 2` at update_playlist.js:98, upd_list.js:91 and clean_existing_playlists.js:49. The comments just above (update_playlist.js:97, upd_list.js:90, clean_existing_playlists.js:48) call that line the channel's URL, but no check is made: a blank line, a comment or the next `#EXTINF:` line is skipped just the same.
- **The line after a kept channel in `upd_list.js`.** The index moves past the line after a kept `#EXTINF:` line whatever it is (upd_list.js:102 and upd_list.js:114). That line is written only when, after `trimEnd`, it is non-empty and does not start with `#` (upd_list.js:104-107). So a kept `#EXTINF:` line directly followed by another `#EXTINF:` line swallows the second one.
- **Idempotence.** The comma fix (upd_list.js:96, clean_existing_playlists.js:54) can change a `group-title` value, for example `"a ,b"` becomes `"a,b"`. So a second run of `clean_existing_playlists.js` or `upd_list.js` with `a,b` excluded removes a channel the first run kept (`CleanExisting.SecondPassCanRemove`, `UpdList.SecondPassCanRemove`). The scripts are idempotent only for exclusion lists that the fix cannot move a group value into.
- **`update_playlist.js` never rewrites a kept line** (update_playlist.js:105), so re-filtering its kept lines keeps them all, for every exclusion list.
- **Blank entries.** `clean_existing_playlists.js` keeps blank exclusion strings (clean_existing_playlists.js:7). A blank entry normalises to `''`, which removes channels with an empty `group-title`. The other two scripts drop blank entries (update_playlist.js:58, upd_list.js:45).
- **Non-string entries.** A non-string array entry makes `clean_existing_playlists.js` throw at clean_existing_playlists.js:7, before its `try` block. The other two scripts skip such entries (update_playlist.js:58, upd_list.js:45).
- **Empty group values.** `update_playlist.js` matches `group-title` with `+` (update_playlist.js:87), so an empty value `""` is no match: the search goes on along the line and takes the next non-empty value, if any, and a channel whose only value is empty is never excluded there. The other two use `*` (upd_list.js:79, clean_existing_playlists.js:37) and see the empty value.
