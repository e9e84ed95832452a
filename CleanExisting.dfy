/** The filter of `clean_existing_playlists.js`: drops every channel whose
    first `group-title` is excluded, applies the comma fix to every other
    `#EXTINF:` line and counts the lines it changed, and passes every other
    line through verbatim. */
module CleanExisting {
  import opened Text
  import opened M3u
  import opened Exclusions

  /** An `#EXTINF:` line the loop drops: the list is non-empty and the line's
      first `group-title` value, possibly empty, lower-cased and trimmed, is
      in it. */
  predicate Excluded(line: string, excludedLower: seq<string>) {
    IsInfo(line) && |excludedLower| > 0 &&
    match GroupTitle(line, true)
    case Some(group) => Normal(group) in excludedLower
    case None => false
  }

  /** The drop rule of this filter as a value. */
  function Rule(excludedLower: seq<string>): (drop: string -> bool)
    ensures forall line :: drop(line) == Excluded(line, excludedLower)
  {
    line => Excluded(line, excludedLower)
  }

  /** What the loop produces from index `i` on: the kept lines, the number of
      channels removed and the number of `#EXTINF:` lines the comma fix changed. */
  datatype Pass = Pass(kept: seq<string>, removed: nat, fixed: nat)

  /** One turn of the loop: kept lines, removed channels, fixed lines, next index. */
  datatype Step = Step(emitted: seq<string>, removed: nat, fixed: nat, next: nat)

  /** What one turn of the loop does at index `i`, for a rule `drop` deciding
      which `#EXTINF:` lines go: a header in first place is kept as it is; a
      dropped `#EXTINF:` line goes together with the line after it, whatever
      that line is; a kept one is emitted with the comma fix and counted when
      the fix changed it; every other line is kept as it is. */
  function LineStep(lines: seq<string>, drop: string -> bool, i: nat): (s: Step)
    requires i < |lines|
    ensures i < s.next <= i + 2
  {
    var line := lines[i];
    if i == 0 && IsHeader(line) then Step([line], 0, 0, 1)
    else if IsInfo(line) then
      if drop(line) then Step([], 1, 0, i + 2)
      else
        var fixedLine := FixCommas(line);
        Step([fixedLine], 0, if fixedLine != line then 1 else 0, i + 1)
    else Step([line], 0, 0, i + 1)
  }

  /** The loop from index `i` on. */
  function Clean(lines: seq<string>, drop: string -> bool, i: nat): (r: Pass)
    decreases |lines| - i
  {
    if i >= |lines| then Pass([], 0, 0)
    else
      var step := LineStep(lines, drop, i);
      var rest := Clean(lines, drop, step.next);
      Pass(step.emitted + rest.kept, step.removed + rest.removed, step.fixed + rest.fixed)
  }

  // ---------------------------------------------------------------------------
  // The imperative pass.

  /** The loop of `processLocalPlaylist` over the lines of the playlist; `drop`
      is the exclusion rule as a value, for the specification only. */
  method CleanLines(lines: seq<string>, excludedLower: seq<string>, ghost drop: string -> bool)
    returns (newLines: seq<string>, removedCount: nat, fixedCount: nat)
    requires forall line {:trigger Excluded(line, excludedLower)} :: drop(line) == Excluded(line, excludedLower)
    ensures Pass(newLines, removedCount, fixedCount) == Clean(lines, drop, 0)
  {
    newLines := [];
    removedCount := 0;
    fixedCount := 0;
    var i := 0;
    while i < |lines|
      invariant i <= |lines| + 1
      invariant newLines + Clean(lines, drop, i).kept == Clean(lines, drop, 0).kept
      invariant removedCount + Clean(lines, drop, i).removed == Clean(lines, drop, 0).removed
      invariant fixedCount + Clean(lines, drop, i).fixed == Clean(lines, drop, 0).fixed
    {
      var kept, removed, fixed, next := Turn(lines, excludedLower, drop, i);
      ghost var rest := Clean(lines, drop, next);
      assert Clean(lines, drop, i) == Pass(kept + rest.kept, removed + rest.removed, fixed + rest.fixed);
      assert newLines + (kept + rest.kept) == (newLines + kept) + rest.kept;
      newLines := newLines + kept;
      removedCount := removedCount + removed;
      fixedCount := fixedCount + fixed;
      i := next;
    }
  }

  /** One turn of the loop at index `i`: the lines it keeps, the channels it
      removes, the lines it fixes and the index it moves on to. */
  method Turn(lines: seq<string>, excludedLower: seq<string>, ghost drop: string -> bool, i: nat)
    returns (kept: seq<string>, removed: nat, fixed: nat, next: nat)
    requires forall line {:trigger Excluded(line, excludedLower)} :: drop(line) == Excluded(line, excludedLower)
    requires i < |lines|
    ensures LineStep(lines, drop, i) == Step(kept, removed, fixed, next)
  {
    var line := lines[i];
    if i == 0 && IsHeader(line) {
      return [line], 0, 0, i + 1;
    }
    if IsInfo(line) {
      var shouldSkip := ShouldSkip(line, excludedLower);
      if shouldSkip {
        return [], 1, 0, i + 2;
      }
      var normalizedLine := line;
      var fixedLine := FixCommas(normalizedLine);
      fixed := 0;
      if fixedLine != normalizedLine {
        fixed := 1;
        normalizedLine := fixedLine;
      }
      return [normalizedLine], 0, fixed, i + 1;
    }
    assert !Excluded(line, excludedLower);
    return [line], 0, 0, i + 1;
  }

  /** The `group-title` test of the loop, for an `#EXTINF:` line. */
  method ShouldSkip(line: string, excludedLower: seq<string>) returns (shouldSkip: bool)
    requires IsInfo(line)
    ensures shouldSkip == Excluded(line, excludedLower)
  {
    shouldSkip := false;
    if |excludedLower| > 0 {
      var groupMatch := GroupTitle(line, true);
      if groupMatch.Some? {
        var group := Normal(groupMatch.value);
        if group in excludedLower {
          shouldSkip := true;
        }
      }
    }
  }

  /** The outcome of `processLocalPlaylist`: the text written back with the
      two counters, or the `TypeError` the normalisation throws. */
  datatype Outcome = Written(updatedPlaylist: string, removedCount: nat, fixedCount: nat) | Thrown

  /** `processLocalPlaylist` between reading and writing the file: normalise
      the categories, split the text, clean the lines, join and trim. */
  method ProcessLocalPlaylist(playlistText: string, excludedCategories: Categories) returns (outcome: Outcome)
    ensures outcome.Thrown? <==> excludedCategories.List? && NonString in excludedCategories.entries
    ensures outcome.Written? ==>
              var pass := Clean(Split(playlistText), Rule(NormalizeAll(excludedCategories).list), 0);
              outcome == Written(Trim(Join(pass.kept)) + "\n", pass.removed, pass.fixed)
    ensures outcome.Written? ==> outcome.removedCount + outcome.fixedCount <= InfoCount(Split(playlistText), 0)
    ensures outcome.Written? ==>
              var text := outcome.updatedPlaylist;
              var body := text[..|text| - 1];
              text[|text| - 1] == '\n' && (body == [] || (!IsSpace(body[0]) && !IsSpace(body[|body| - 1])))
  {
    var normalized := NormalizeAll(excludedCategories);
    if normalized.TypeError? {
      return Thrown;
    }
    var excludedLower := normalized.list;
    var lines := Split(playlistText);
    var newLines, removedCount, fixedCount := CleanLines(lines, excludedLower, Rule(excludedLower));
    var joined := Join(newLines);
    var updatedPlaylist := Trim(joined) + "\n";
    CountsAtMostInfoLines(lines, Rule(excludedLower), 0);
    TrimFacts(joined);
    assert updatedPlaylist[..|updatedPlaylist| - 1] == Trim(joined);
    outcome := Written(updatedPlaylist, removedCount, fixedCount);
  }

  // ---------------------------------------------------------------------------
  // What is kept.

  /** A line as the loop keeps it: an `#EXTINF:` line with the comma fix
      applied, any other line as it is. */
  function Repaired(line: string): string {
    if IsInfo(line) then FixCommas(line) else line
  }

  /** Every line repaired, in order. */
  function RepairedLines(lines: seq<string>): (r: seq<string>)
    ensures |r| == |lines|
  {
    seq(|lines|, k requires 0 <= k < |lines| => Repaired(lines[k]))
  }

  /** A repaired line differs from the input line exactly when that is an
      `#EXTINF:` line with whitespace before a comma; a repaired `#EXTINF:`
      line has none left, and exactly the whitespace from which only
      whitespace leads to a comma was deleted from it. */
  lemma RepairedLinesFacts(lines: seq<string>, k: nat)
    requires k < |lines|
    ensures var r := RepairedLines(lines)[k];
            (r == lines[k] <==> !IsInfo(lines[k]) || NoSpaceBeforeComma(lines[k])) &&
            (IsInfo(lines[k]) ==> NoSpaceBeforeComma(r) && NonSpace(r) == NonSpace(lines[k]) && r == Unpadded(lines[k]))
  {
    FixCommasIsUnpadded(lines[k]);
    FixCommasChangesIff(lines[k]);
    FixCommasHasNoSpaceBeforeComma(lines[k]);
    FixCommasDeletesOnlySpace(lines[k]);
  }

  /** A turn of the loop keeps at most the repaired line it is at. */
  lemma StepKeepsRepaired(lines: seq<string>, drop: string -> bool, i: nat)
    requires i < |lines|
    ensures var step := LineStep(lines, drop, i);
            (step.emitted == [Repaired(lines[i])] && step.next == i + 1 && step.removed == 0) ||
            (step.emitted == [] && step.next == i + 2 && step.removed == 1 && drop(lines[i]))
  {
    if i == 0 && IsHeader(lines[0]) {
      HeaderIsNotInfo(lines[0]);
    }
  }

  /** Kept lines are input lines, repaired, in their original order. */
  lemma {:induction false} KeptInOrder(lines: seq<string>, drop: string -> bool, i: nat)
    requires i <= |lines|
    ensures IsSubsequence(Clean(lines, drop, i).kept, RepairedLines(lines)[i..])
    decreases |lines| - i
  {
    if i < |lines| {
      var step := LineStep(lines, drop, i);
      StepKeepsRepaired(lines, drop, i);
      if step.next <= |lines| {
        KeptInOrder(lines, drop, step.next);
      }
      SubsequenceStep(step.emitted, Clean(lines, drop, step.next).kept, RepairedLines(lines), i, step.next);
    }
  }

  /** When no line from `i` on is dropped, every line is kept, repaired, and
      nothing is counted as removed. */
  lemma {:induction false} NothingDroppedRepairsAll(lines: seq<string>, drop: string -> bool, i: nat)
    requires i <= |lines|
    requires forall k :: i <= k < |lines| ==> !drop(lines[k])
    ensures Clean(lines, drop, i).kept == RepairedLines(lines)[i..]
    ensures Clean(lines, drop, i).removed == 0
    decreases |lines| - i
  {
    if i < |lines| {
      var repaired := RepairedLines(lines);
      StepKeepsRepaired(lines, drop, i);
      NothingDroppedRepairsAll(lines, drop, i + 1);
      assert repaired[i..] == [repaired[i]] + repaired[i + 1..];
    }
  }

  /** With an empty exclusion list nothing is removed and every line is kept,
      `#EXTINF:` lines with the comma fix applied: the fix-only mode. */
  lemma FixOnlyMode(lines: seq<string>)
    ensures var pass := Clean(lines, Rule([]), 0);
            pass.kept == RepairedLines(lines) && |pass.kept| == |lines| && pass.removed == 0
  {
    NothingDroppedRepairsAll(lines, Rule([]), 0);
    assert RepairedLines(lines)[0..] == RepairedLines(lines);
  }

  /** A blank exclusion string normalises to the entry `''`, which removes
      every channel whose `group-title` value is blank. */
  lemma BlankEntryRemovesBlankGroups(line: string, name: string)
    requires Trim(name) == []
    requires IsInfo(line) && GroupTitle(line, true).Some? && Trim(GroupTitle(line, true).value) == []
    ensures NormalizeAll(One(name)) == Ok([[]])
    ensures Excluded(line, NormalizeAll(One(name)).list)
  {
    BlankCategory(name);
    NormalBlank(GroupTitle(line, true).value);
  }

  // ---------------------------------------------------------------------------
  // Counting.

  /** A turn of the loop counts a channel as fixed exactly when it keeps an
      `#EXTINF:` line with whitespace before a comma. */
  lemma StepFixed(lines: seq<string>, drop: string -> bool, i: nat)
    requires i < |lines|
    ensures LineStep(lines, drop, i).fixed == 1 <==>
              !(i == 0 && IsHeader(lines[0])) && IsInfo(lines[i]) && !drop(lines[i]) &&
              !NoSpaceBeforeComma(lines[i])
    ensures LineStep(lines, drop, i).fixed <= 1
  {
    FixCommasChangesIff(lines[i]);
  }

  /** A turn of the loop removes or fixes at most one channel, charged to the
      `#EXTINF:` line it is at. */
  lemma StepCount(lines: seq<string>, drop: string -> bool, i: nat)
    requires i < |lines|
    ensures var step := LineStep(lines, drop, i);
            step.removed + step.fixed + InfoCount(lines, step.next) <= InfoCount(lines, i)
  {
    InfoCountStep(lines, i + 1);
  }

  /** `removedCount + fixedCount` is at most the number of `#EXTINF:` lines. */
  lemma {:induction false} CountsAtMostInfoLines(lines: seq<string>, drop: string -> bool, i: nat)
    ensures Clean(lines, drop, i).removed + Clean(lines, drop, i).fixed <= InfoCount(lines, i)
    decreases |lines| - i
  {
    if i < |lines| {
      var step := LineStep(lines, drop, i);
      CountsAtMostInfoLines(lines, drop, step.next);
      StepCount(lines, drop, i);
    }
  }

  // ---------------------------------------------------------------------------
  // A second pass.

  /** No `#EXTINF:` line of `ls` has whitespace before a comma. */
  predicate InfosClean(ls: seq<string>) {
    forall k :: 0 <= k < |ls| && IsInfo(ls[k]) ==> NoSpaceBeforeComma(ls[k])
  }

  /** Every kept `#EXTINF:` line is free of whitespace before a comma. */
  lemma {:induction false} KeptInfosClean(lines: seq<string>, drop: string -> bool, i: nat)
    ensures InfosClean(Clean(lines, drop, i).kept)
    decreases |lines| - i
  {
    if i < |lines| {
      var step := LineStep(lines, drop, i);
      var rest := Clean(lines, drop, step.next).kept;
      KeptInfosClean(lines, drop, step.next);
      StepKeepsRepaired(lines, drop, i);
      FixCommasHasNoSpaceBeforeComma(lines[i]);
      var kept := step.emitted + rest;
      forall k | |step.emitted| <= k < |kept| ensures kept[k] == rest[k - |step.emitted|] {}
    }
  }

  /** The rule keeps every kept `#EXTINF:` line once the comma fix has run. */
  ghost predicate Stable(drop: string -> bool) {
    forall line :: IsInfo(line) && !drop(line) ==> !drop(FixCommas(line))
  }

  /** No `#EXTINF:` line of `ls` is one the rule drops. */
  predicate InfosKept(ls: seq<string>, drop: string -> bool) {
    forall k :: 0 <= k < |ls| && IsInfo(ls[k]) ==> !drop(ls[k])
  }

  /** With a stable rule, no kept `#EXTINF:` line is one the rule drops. */
  lemma {:induction false} KeptInfosSurvive(lines: seq<string>, drop: string -> bool, i: nat)
    requires Stable(drop)
    ensures InfosKept(Clean(lines, drop, i).kept, drop)
    decreases |lines| - i
  {
    if i < |lines| {
      var step := LineStep(lines, drop, i);
      var rest := Clean(lines, drop, step.next).kept;
      KeptInfosSurvive(lines, drop, step.next);
      var line := lines[i];
      if i == 0 && IsHeader(line) {
        HeaderIsNotInfo(line);
      } else if IsInfo(line) && !drop(line) {
        assert step.emitted == [FixCommas(line)];
        assert !drop(FixCommas(line));
      }
      assert forall k :: 0 <= k < |step.emitted| && IsInfo(step.emitted[k]) ==> !drop(step.emitted[k]);
      var kept := step.emitted + rest;
      forall k | |step.emitted| <= k < |kept| ensures kept[k] == rest[k - |step.emitted|] {}
    }
  }

  /** Lines whose `#EXTINF:` lines are clean and kept by the rule go through
      the loop unchanged, with nothing removed and nothing fixed. */
  lemma {:induction false} CleanLinesAreFixed(ls: seq<string>, drop: string -> bool, i: nat)
    requires i <= |ls| && InfosClean(ls) && InfosKept(ls, drop)
    ensures Clean(ls, drop, i) == Pass(ls[i..], 0, 0)
    decreases |ls| - i
  {
    if i < |ls| {
      CleanLineStep(ls, drop, i);
      CleanLinesAreFixed(ls, drop, i + 1);
      SliceCons(ls, i);
    }
  }

  /** A turn of the loop at a line that is no dropped or unclean
      `#EXTINF:` line keeps that line as it is. */
  lemma CleanLineStep(ls: seq<string>, drop: string -> bool, i: nat)
    requires i < |ls|
    requires IsInfo(ls[i]) ==> NoSpaceBeforeComma(ls[i]) && !drop(ls[i])
    ensures LineStep(ls, drop, i) == Step([ls[i]], 0, 0, i + 1)
  {
    if IsInfo(ls[i]) {
      FixCommasKeepsCleanLine(ls[i]);
    }
  }

  /** Running the loop again on the lines it kept, with a stable rule, keeps
      all of them and removes and fixes nothing. */
  lemma SecondPass(lines: seq<string>, drop: string -> bool)
    requires Stable(drop)
    ensures var once := Clean(lines, drop, 0).kept;
            Clean(once, drop, 0) == Pass(once, 0, 0)
  {
    var once := Clean(lines, drop, 0).kept;
    KeptInfosClean(lines, drop, 0);
    KeptInfosSurvive(lines, drop, 0);
    CleanLinesAreFixed(once, drop, 0);
    assert once[0..] == once;
  }

  /** In fix-only mode a second run fixes nothing. */
  lemma FixOnlySecondPass(lines: seq<string>)
    ensures var once := Clean(lines, Rule([]), 0).kept;
            Clean(once, Rule([]), 0) == Pass(once, 0, 0)
  {
    assert Stable(Rule([]));
    SecondPass(lines, Rule([]));
  }

  // ---------------------------------------------------------------------------
  // Which channels come out of a well-formed playlist.

  /** Every channel of `cs` is seen by the loop as an `#EXTINF:` line that is
      not a header, followed by a line that is not an `#EXTINF:` line. */
  predicate SeenAsChannels(cs: seq<Channel>)
    decreases |cs|
  {
    cs == [] ||
    (IsInfo(cs[0].info) && !IsHeader(cs[0].info) && !IsInfo(cs[0].address) && SeenAsChannels(cs[1..]))
  }

  lemma {:induction false} AllSeenAsChannels(cs: seq<Channel>)
    requires forall k :: 0 <= k < |cs| ==> IsChannel(cs[k])
    ensures SeenAsChannels(cs)
    decreases |cs|
  {
    if cs != [] {
      ChannelSeen(cs[0]);
      AllSeenAsChannels(cs[1..]);
    }
  }

  /** The channels as the loop writes them: each `#EXTINF:` line with the
      comma fix, each address as it is. */
  function RepairedChannels(cs: seq<Channel>): (r: seq<Channel>)
    ensures |r| == |cs|
  {
    if cs == [] then []
    else [Channel(FixCommas(cs[0].info), cs[0].address)] + RepairedChannels(cs[1..])
  }

  /** The number of channels whose `#EXTINF:` line has whitespace before a
      comma. */
  function UncleanCount(cs: seq<Channel>): nat {
    if cs == [] then 0
    else (if NoSpaceBeforeComma(cs[0].info) then 0 else 1) + UncleanCount(cs[1..])
  }

  /** The loop at the two lines of a channel. */
  lemma ChannelStep(lines: seq<string>, drop: string -> bool, j: nat)
    requires j + 1 < |lines| && IsInfo(lines[j]) && !IsHeader(lines[j]) && !IsInfo(lines[j + 1])
    ensures var after := Clean(lines, drop, j + 2);
            Clean(lines, drop, j) ==
              if drop(lines[j]) then Pass(after.kept, after.removed + 1, after.fixed)
              else Pass([FixCommas(lines[j]), lines[j + 1]] + after.kept, after.removed,
                        after.fixed + if NoSpaceBeforeComma(lines[j]) then 0 else 1)
  {
    if drop(lines[j]) {
      DroppedInfoStep(lines, drop, j);
    } else {
      KeptInfoStep(lines, drop, j);
      OtherLineStep(lines, drop, j + 1);
      var after := Clean(lines, drop, j + 2);
      assert [FixCommas(lines[j])] + ([lines[j + 1]] + after.kept) == [FixCommas(lines[j]), lines[j + 1]] + after.kept;
    }
  }

  /** The loop at a dropped `#EXTINF:` line: it goes with the line after it. */
  lemma DroppedInfoStep(lines: seq<string>, drop: string -> bool, j: nat)
    requires j < |lines| && IsInfo(lines[j]) && !IsHeader(lines[j]) && drop(lines[j])
    ensures var after := Clean(lines, drop, j + 2);
            Clean(lines, drop, j) == Pass(after.kept, after.removed + 1, after.fixed)
  {
    assert [] + Clean(lines, drop, j + 2).kept == Clean(lines, drop, j + 2).kept;
  }

  /** The loop at a kept `#EXTINF:` line that is not in first place as a
      header: the fixed line, counted when the fix changes it. */
  lemma KeptInfoStep(lines: seq<string>, drop: string -> bool, j: nat)
    requires j < |lines| && IsInfo(lines[j]) && !IsHeader(lines[j]) && !drop(lines[j])
    ensures var mid := Clean(lines, drop, j + 1);
            Clean(lines, drop, j) ==
              Pass([FixCommas(lines[j])] + mid.kept, mid.removed,
                   mid.fixed + if NoSpaceBeforeComma(lines[j]) then 0 else 1)
  {
    FixCommasChangesIff(lines[j]);
  }

  /** The loop at a line past the first that is not an `#EXTINF:` line: it
      is kept as it is. */
  lemma OtherLineStep(lines: seq<string>, drop: string -> bool, j: nat)
    requires 0 < j < |lines| && !IsInfo(lines[j])
    ensures var after := Clean(lines, drop, j + 1);
            Clean(lines, drop, j) == Pass([lines[j]] + after.kept, after.removed, after.fixed)
  {
  }

  /** One channel's contribution to the loop, as lines and counts only. */
  lemma ChannelCount(here: Pass, after: Pass, cs: seq<Channel>, tail: seq<string>, drop: string -> bool)
    requires cs != []
    requires here == if drop(cs[0].info) then Pass(after.kept, after.removed + 1, after.fixed)
                     else Pass([FixCommas(cs[0].info), cs[0].address] + after.kept, after.removed,
                               after.fixed + if NoSpaceBeforeComma(cs[0].info) then 0 else 1)
    requires var rest := Survivors(cs[1..], drop);
             after == Pass(ChannelLines(RepairedChannels(rest)) + tail, |cs[1..]| - |rest|, UncleanCount(rest))
    ensures var survivors := Survivors(cs, drop);
            here == Pass(ChannelLines(RepairedChannels(survivors)) + tail, |cs| - |survivors|, UncleanCount(survivors))
  {
    var rest := Survivors(cs[1..], drop);
    if drop(cs[0].info) {
      assert Survivors(cs, drop) == rest;
    } else {
      var c := cs[0];
      assert Survivors(cs, drop) == [c] + rest;
      assert ([c] + rest)[1..] == rest;
      var pair := [FixCommas(c.info), c.address];
      assert ChannelLines(RepairedChannels([c] + rest)) == pair + ChannelLines(RepairedChannels(rest));
      Concat3(pair, ChannelLines(RepairedChannels(rest)), tail);
    }
  }

  /** Lines none of which is an `#EXTINF:` line are kept as they are, with
      nothing counted. */
  lemma {:induction false} PlainLinesKept(lines: seq<string>, drop: string -> bool, j: nat)
    requires j <= |lines|
    requires forall k :: j <= k < |lines| ==> !IsInfo(lines[k])
    ensures Clean(lines, drop, j) == Pass(lines[j..], 0, 0)
    decreases |lines| - j
  {
    if j < |lines| {
      PlainLinesKept(lines, drop, j + 1);
      assert [lines[j]] + lines[j + 1..] == lines[j..];
    }
  }

  lemma TailKept(lines: seq<string>, j: nat, tail: seq<string>, drop: string -> bool)
    requires j <= |lines| && lines[j..] == tail
    requires forall k :: 0 <= k < |tail| ==> !IsInfo(tail[k])
    ensures Clean(lines, drop, j) == Pass(tail, 0, 0)
  {
    forall k | j <= k < |lines| ensures !IsInfo(lines[k]) {
      assert lines[k] == tail[k - j];
    }
    PlainLinesKept(lines, drop, j);
  }

  /** The lines from index `j` on are those of the channels `cs` followed by
      `tail`. */
  predicate ChannelsFrom(lines: seq<string>, j: nat, cs: seq<Channel>, tail: seq<string>) {
    j <= |lines| && lines[j..] == ChannelLines(cs) + tail
  }

  /** The loop at the first channel of a run. */
  lemma FirstChannel(lines: seq<string>, j: nat, cs: seq<Channel>, tail: seq<string>, drop: string -> bool)
    requires ChannelsFrom(lines, j, cs, tail) && cs != [] && SeenAsChannels(cs)
    ensures ChannelsFrom(lines, j + 2, cs[1..], tail) && SeenAsChannels(cs[1..])
    ensures var after := Clean(lines, drop, j + 2);
            Clean(lines, drop, j) ==
              if drop(cs[0].info) then Pass(after.kept, after.removed + 1, after.fixed)
              else Pass([FixCommas(cs[0].info), cs[0].address] + after.kept, after.removed,
                        after.fixed + if NoSpaceBeforeComma(cs[0].info) then 0 else 1)
  {
    ChannelLinesCons(lines, j, cs, tail);
    ChannelStep(lines, drop, j);
  }

  /** The loop from index `j` on, where the lines from `j` on are those of
      well-formed channels followed by lines that are not `#EXTINF:` lines. */
  lemma {:induction false} ChannelsCleanedFrom(lines: seq<string>, j: nat, cs: seq<Channel>, tail: seq<string>,
                                               drop: string -> bool)
    requires ChannelsFrom(lines, j, cs, tail) && SeenAsChannels(cs)
    requires forall k :: 0 <= k < |tail| ==> !IsInfo(tail[k])
    ensures var survivors := Survivors(cs, drop);
            Clean(lines, drop, j) ==
              Pass(ChannelLines(RepairedChannels(survivors)) + tail, |cs| - |survivors|, UncleanCount(survivors))
    decreases |cs|
  {
    if cs != [] {
      FirstChannel(lines, j, cs, tail, drop);
      ChannelsCleanedFrom(lines, j + 2, cs[1..], tail, drop);
      ChannelCount(Clean(lines, drop, j), Clean(lines, drop, j + 2), cs, tail, drop);
    } else {
      TailKept(lines, j, tail, drop);
    }
  }

  /** A header in first place is kept, and the loop goes on after it. */
  lemma HeaderKept(lines: seq<string>, drop: string -> bool)
    requires |lines| > 0 && IsHeader(lines[0])
    ensures var rest := Clean(lines, drop, 1);
            Clean(lines, drop, 0) == Pass([lines[0]] + rest.kept, rest.removed, rest.fixed)
  {
  }

  /** A playlist made of an optional header, well-formed channels, and lines
      that are not `#EXTINF:` lines comes out as the header, exactly the
      channels the rule keeps, each `#EXTINF:` line fixed and still followed
      by its address, and the trailing lines; the removed count is the number
      of the other channels, the fixed count the number of kept channels whose
      `#EXTINF:` line had whitespace before a comma. */
  lemma ChannelsCleaned(head: seq<string>, cs: seq<Channel>, tail: seq<string>, drop: string -> bool)
    requires head == [] || (|head| == 1 && IsHeader(head[0]))
    requires forall k :: 0 <= k < |cs| ==> IsChannel(cs[k])
    requires forall k :: 0 <= k < |tail| ==> !IsInfo(tail[k])
    ensures var survivors := Survivors(cs, drop);
            Clean(head + ChannelLines(cs) + tail, drop, 0) ==
              Pass(head + ChannelLines(RepairedChannels(survivors)) + tail, |cs| - |survivors|, UncleanCount(survivors))
  {
    var lines := head + ChannelLines(cs) + tail;
    var out := ChannelLines(RepairedChannels(Survivors(cs, drop)));
    Concat3(head, ChannelLines(cs), tail);
    assert ChannelsFrom(lines, |head|, cs, tail);
    AllSeenAsChannels(cs);
    ChannelsCleanedFrom(lines, |head|, cs, tail, drop);
    var rest := Clean(lines, drop, |head|);
    Concat3(head, out, tail);
    if head != [] {
      HeaderKept(lines, drop);
      assert head == [lines[0]];
      assert Clean(lines, drop, 0) == Pass(head + rest.kept, rest.removed, rest.fixed);
    } else {
      assert Clean(lines, drop, 0) == rest;
      assert head + out + tail == out + tail;
    }
  }

  /** The same for the text of such a playlist ending in a newline, as the
      script splits it, and its own rule: the empty piece after the last
      newline is kept. */
  lemma PlaylistCleaned(head: seq<string>, cs: seq<Channel>, excludedLower: seq<string>)
    requires head == [] || (|head| == 1 && IsHeader(head[0]) && '\n' !in head[0])
    requires head != [] || cs != []
    requires forall k :: 0 <= k < |cs| ==> IsChannel(cs[k])
    ensures var survivors := Survivors(cs, Rule(excludedLower));
            Clean(Split(Join(head + ChannelLines(cs)) + "\n"), Rule(excludedLower), 0) ==
              Pass(head + ChannelLines(RepairedChannels(survivors)) + [[]], |cs| - |survivors|, UncleanCount(survivors))
  {
    PlaylistLines(head, cs);
    assert !IsInfo([]) by {
      assert Trim([]) == [];
    }
    ChannelsCleaned(head, cs, [[]], Rule(excludedLower));
  }

  // ---------------------------------------------------------------------------
  // Without a stable rule a second pass can remove more.

  /** A playlist of one `#EXTINF:` line. */
  lemma OneInfoLine(line: string, drop: string -> bool)
    requires IsInfo(line) && !IsHeader(line)
    ensures Clean([line], drop, 0) ==
              if drop(line) then Pass([], 1, 0)
              else Pass([FixCommas(line)], 0, if FixCommas(line) != line then 1 else 0)
  {
    assert Clean([line], drop, 1) == Pass([], 0, 0);
  }

  /** How the rule excluding `a,b` sees the line before and after the fix. */
  lemma TaggedVerdicts(a: string, b: string)
    requires a != [] && b != [] && Plain(a) && Plain(b)
    ensures var e := [Normal(a + "," + b)];
            !Excluded(Tagged(a + " ," + b), e) && Excluded(Tagged(a + "," + b), e)
    ensures IsInfo(Tagged(a + " ," + b)) && !IsHeader(Tagged(a + " ," + b))
    ensures IsInfo(Tagged(a + "," + b)) && !IsHeader(Tagged(a + "," + b))
  {
    var v1 := a + " ," + b;
    var v2 := a + "," + b;
    assert forall k :: 0 <= k < |v1| ==> !IsQuote(v1[k]);
    assert forall k :: 0 <= k < |v2| ==> !IsQuote(v2[k]);
    TaggedFacts(v1);
    TaggedFacts(v2);
    NormalKeepsLength(v1);
    NormalKeepsLength(v2);
  }

  /** The channel `#EXTINF:group-title="a ,b"` survives a run excluding
      `a,b` and is fixed to `#EXTINF:group-title="a,b"`, which a second run
      with the same list removes: the rule `a,b` is not stable, and the
      script is not idempotent. */
  lemma SecondPassCanRemove(a: string, b: string)
    requires a != [] && b != [] && Plain(a) && Plain(b)
    ensures var e := [Normal(a + "," + b)];
            Clean([Tagged(a + " ," + b)], Rule(e), 0) == Pass([Tagged(a + "," + b)], 0, 1) &&
            Clean([Tagged(a + "," + b)], Rule(e), 0) == Pass([], 1, 0)
  {
    var spaced := Tagged(a + " ," + b);
    var joined := Tagged(a + "," + b);
    var e := [Normal(a + "," + b)];
    TaggedFix(a, b);
    assert |spaced| != |joined|;
    TaggedVerdicts(a, b);
    OneInfoLine(spaced, Rule(e));
    OneInfoLine(joined, Rule(e));
  }
}
