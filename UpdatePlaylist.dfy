/** The filter of `update_playlist.js`: drops every channel whose first
    non-empty `group-title` is excluded and passes every other line through
    verbatim. */
module UpdatePlaylist {
  import opened Text
  import opened M3u
  import opened Exclusions

  /** An `#EXTINF:` line the loop drops: the list is non-empty and the line's
      first non-empty `group-title` value, lower-cased and trimmed, is in it. */
  predicate Excluded(line: string, excludedLower: seq<string>) {
    IsInfo(line) && |excludedLower| > 0 &&
    match GroupTitle(line, false)
    case Some(group) => Normal(group) in excludedLower
    case None => false
  }

  /** The drop rule of this filter as a value. */
  function Rule(excludedLower: seq<string>): (drop: string -> bool)
    ensures forall line :: drop(line) == Excluded(line, excludedLower)
  {
    line => Excluded(line, excludedLower)
  }

  /** What the loop produces from index `i` on: the kept lines and the
      number of channels removed. */
  datatype Pass = Pass(kept: seq<string>, removed: nat)

  /** One turn of the loop: kept lines, removed channels, next index. */
  datatype Step = Step(emitted: seq<string>, removed: nat, next: nat)

  /** What one turn of the loop does at index `i`, for a rule `drop` deciding
      which `#EXTINF:` lines go: a header in first place is kept, a dropped
      line goes together with the line after it, whatever that line is, and
      every other line is kept. */
  function LineStep(lines: seq<string>, drop: string -> bool, i: nat): (s: Step)
    requires i < |lines|
    ensures i < s.next <= i + 2
  {
    if i == 0 && IsHeader(lines[0]) then Step([lines[0]], 0, 1)
    else if drop(lines[i]) then Step([], 1, i + 2)
    else Step([lines[i]], 0, i + 1)
  }

  /** The loop from index `i` on. */
  function Filter(lines: seq<string>, drop: string -> bool, i: nat): (r: Pass)
    decreases |lines| - i
  {
    if i >= |lines| then Pass([], 0)
    else
      var step := LineStep(lines, drop, i);
      var rest := Filter(lines, drop, step.next);
      Pass(step.emitted + rest.kept, step.removed + rest.removed)
  }

  /** The loop of `processPlaylist` over the lines of the playlist. */
  method FilterLines(lines: seq<string>, excludedLower: seq<string>, ghost drop: string -> bool)
    returns (newLines: seq<string>, removedCount: nat)
    requires forall line {:trigger Excluded(line, excludedLower)} :: drop(line) == Excluded(line, excludedLower)
    ensures newLines == Filter(lines, drop, 0).kept
    ensures removedCount == Filter(lines, drop, 0).removed
  {
    newLines := [];
    removedCount := 0;
    var i := 0;
    while i < |lines|
      invariant i <= |lines| + 1
      invariant newLines + Filter(lines, drop, i).kept == Filter(lines, drop, 0).kept
      invariant removedCount + Filter(lines, drop, i).removed == Filter(lines, drop, 0).removed
    {
      var kept, removed, next := Turn(lines, excludedLower, drop, i);
      ghost var rest := Filter(lines, drop, next);
      assert Filter(lines, drop, i) == Pass(kept + rest.kept, removed + rest.removed);
      assert newLines + (kept + rest.kept) == (newLines + kept) + rest.kept;
      newLines := newLines + kept;
      removedCount := removedCount + removed;
      i := next;
    }
  }

  /** One turn of the loop at index `i`: the lines it keeps, the channels it
      removes and the index it moves on to. */
  method Turn(lines: seq<string>, excludedLower: seq<string>, ghost drop: string -> bool, i: nat)
    returns (kept: seq<string>, removed: nat, next: nat)
    requires forall line {:trigger Excluded(line, excludedLower)} :: drop(line) == Excluded(line, excludedLower)
    requires i < |lines|
    ensures LineStep(lines, drop, i) == Step(kept, removed, next)
  {
    var line := lines[i];
    if i == 0 && IsHeader(line) {
      return [line], 0, i + 1;
    }
    if IsInfo(line) {
      var shouldSkip := ShouldSkip(line, excludedLower);
      if shouldSkip {
        return [], 1, i + 2;
      }
    } else {
      assert !Excluded(line, excludedLower);
    }
    return [line], 0, i + 1;
  }

  /** The `group-title` test of the loop, for an `#EXTINF:` line. */
  method ShouldSkip(line: string, excludedLower: seq<string>) returns (shouldSkip: bool)
    requires IsInfo(line)
    ensures shouldSkip == Excluded(line, excludedLower)
  {
    shouldSkip := false;
    if |excludedLower| > 0 {
      var groupMatch := GroupTitle(line, false);
      if groupMatch.Some? {
        var group := Normal(groupMatch.value);
        if group in excludedLower {
          shouldSkip := true;
        }
      }
    }
  }

  /** `processPlaylist` after the download: normalise the categories, split
      the text, filter the lines, join the kept lines and trim. */
  method ProcessPlaylist(playlistText: string, excludedCategories: Categories)
    returns (finalPlaylist: string, removedCount: nat)
    ensures var pass := Filter(Split(playlistText), Rule(Normalize(excludedCategories)), 0);
            finalPlaylist == Trim(Join(pass.kept)) + "\n" && removedCount == pass.removed
    ensures Normalize(excludedCategories) == [] ==>
              finalPlaylist == Trim(playlistText) + "\n" && removedCount == 0
    ensures removedCount <= InfoCount(Split(playlistText), 0)
    ensures var body := finalPlaylist[..|finalPlaylist| - 1];
            finalPlaylist[|finalPlaylist| - 1] == '\n' &&
            (body == [] || (!IsSpace(body[0]) && !IsSpace(body[|body| - 1])))
  {
    var excludedLower := Normalize(excludedCategories);
    var lines := Split(playlistText);
    var newLines;
    newLines, removedCount := FilterLines(lines, excludedLower, Rule(excludedLower));
    var updatedPlaylist := Join(newLines);
    finalPlaylist := Trim(updatedPlaylist) + "\n";
    if excludedLower == [] {
      EmptyListKeepsText(playlistText);
    }
    RemovedAtMostInfoLines(lines, excludedLower);
    TrimFacts(updatedPlaylist);
    assert finalPlaylist[..|finalPlaylist| - 1] == Trim(updatedPlaylist);
  }

  /** Every line is either kept or removed with its channel; only a final
      dropped line can have no partner, hence the `+ 1`. */
  lemma {:induction false} FilterLength(lines: seq<string>, drop: string -> bool, i: nat)
    requires i <= |lines|
    ensures var r := Filter(lines, drop, i);
            |lines| - i <= |r.kept| + 2 * r.removed <= |lines| - i + 1 && |r.kept| <= |lines| - i
    decreases |lines| - i
  {
    if i < |lines| {
      var step := LineStep(lines, drop, i);
      if step.next <= |lines| {
        FilterLength(lines, drop, step.next);
      }
    }
  }

  /** The header is kept as it is, in first place. */
  lemma HeaderStaysFirst(lines: seq<string>, drop: string -> bool)
    requires |lines| > 0 && IsHeader(lines[0])
    ensures var kept := Filter(lines, drop, 0).kept;
            kept != [] && kept[0] == lines[0]
  {
  }

  /** Kept lines are input lines, verbatim and in their original order. */
  lemma {:induction false} KeptInOrder(lines: seq<string>, drop: string -> bool, i: nat)
    requires i <= |lines|
    ensures IsSubsequence(Filter(lines, drop, i).kept, lines[i..])
    decreases |lines| - i
  {
    if i < |lines| {
      var step := LineStep(lines, drop, i);
      if step.next <= |lines| {
        KeptInOrder(lines, drop, step.next);
      }
      SubsequenceStep(step.emitted, Filter(lines, drop, step.next).kept, lines, i, step.next);
    }
  }

  /** No kept line is one the rule drops, provided the rule spares headers. */
  lemma {:induction false} NoDroppedLineKept(lines: seq<string>, drop: string -> bool, i: nat)
    requires forall line :: IsHeader(line) ==> !drop(line)
    ensures forall line :: line in Filter(lines, drop, i).kept ==> !drop(line)
    decreases |lines| - i
  {
    if i < |lines| {
      var step := LineStep(lines, drop, i);
      NoDroppedLineKept(lines, drop, step.next);
      assert forall line :: line in step.emitted ==> !drop(line);
      assert Filter(lines, drop, i).kept == step.emitted + Filter(lines, drop, step.next).kept;
    }
  }

  /** No kept line is an excluded `#EXTINF:` line. */
  lemma NoExcludedLineKept(lines: seq<string>, excludedLower: seq<string>)
    ensures forall line :: line in Filter(lines, Rule(excludedLower), 0).kept ==> !Excluded(line, excludedLower)
  {
    forall line | IsHeader(line) ensures !Rule(excludedLower)(line) {
      HeaderIsNotInfo(line);
    }
    NoDroppedLineKept(lines, Rule(excludedLower), 0);
  }

  /** When no line from `i` on is dropped, every line is kept and nothing
      is counted. */
  lemma {:induction false} NothingDroppedKeepsAll(lines: seq<string>, drop: string -> bool, i: nat)
    requires i <= |lines|
    requires forall k :: i <= k < |lines| ==> !drop(lines[k])
    ensures Filter(lines, drop, i) == Pass(lines[i..], 0)
    decreases |lines| - i
  {
    if i < |lines| {
      if i == 0 && IsHeader(lines[0]) {
        NothingDroppedKeepsAll(lines, drop, 1);
      } else {
        NothingDroppedKeepsAll(lines, drop, i + 1);
      }
      assert [lines[i]] + lines[i + 1..] == lines[i..];
    }
  }

  /** With an empty exclusion list the result is the trimmed input plus one
      newline. */
  lemma EmptyListKeepsText(playlistText: string)
    ensures Trim(Join(Filter(Split(playlistText), Rule([]), 0).kept)) + "\n" == Trim(playlistText) + "\n"
    ensures Filter(Split(playlistText), Rule([]), 0).removed == 0
  {
    var lines := Split(playlistText);
    NothingDroppedKeepsAll(lines, Rule([]), 0);
    assert lines[0..] == lines;
    JoinSplit(playlistText);
  }

  /** A turn of the loop removes at most one channel, charged to the line
      it drops. */
  lemma StepCount(lines: seq<string>, drop: string -> bool, i: nat)
    requires forall line :: drop(line) ==> IsInfo(line)
    requires i < |lines|
    ensures var step := LineStep(lines, drop, i);
            step.removed + InfoCount(lines, step.next) <= InfoCount(lines, i)
  {
    InfoCountStep(lines, i + 1);
  }

  /** Each removal is charged to a distinct line the rule drops. */
  lemma {:induction false} RemovedAtMostDropped(lines: seq<string>, drop: string -> bool, i: nat)
    requires forall line :: drop(line) ==> IsInfo(line)
    ensures Filter(lines, drop, i).removed <= InfoCount(lines, i)
    decreases |lines| - i
  {
    if i < |lines| {
      var step := LineStep(lines, drop, i);
      RemovedAtMostDropped(lines, drop, step.next);
      StepCount(lines, drop, i);
    }
  }

  /** Every removed channel is charged to its own `#EXTINF:` line. */
  lemma RemovedAtMostInfoLines(lines: seq<string>, excludedLower: seq<string>)
    ensures Filter(lines, Rule(excludedLower), 0).removed <= InfoCount(lines, 0)
  {
    RemovedAtMostDropped(lines, Rule(excludedLower), 0);
  }

  /** Filtering the kept lines a second time keeps all of them and removes
      nothing. */
  lemma Idempotent(lines: seq<string>, excludedLower: seq<string>)
    ensures var once := Filter(lines, Rule(excludedLower), 0).kept;
            Filter(once, Rule(excludedLower), 0) == Pass(once, 0)
  {
    var drop := Rule(excludedLower);
    var once := Filter(lines, drop, 0).kept;
    NoExcludedLineKept(lines, excludedLower);
    NothingDroppedKeepsAll(once, drop, 0);
    assert once[0..] == once;
  }

  /** The loop at the two lines of a channel, not at a header in first
      place, whose address line the rule keeps. */
  lemma ChannelStep(lines: seq<string>, drop: string -> bool, j: nat)
    requires j + 1 < |lines| && !drop(lines[j + 1])
    requires j == 0 ==> !IsHeader(lines[0])
    ensures var after := Filter(lines, drop, j + 2);
            Filter(lines, drop, j) ==
              if drop(lines[j]) then Pass(after.kept, after.removed + 1)
              else Pass([lines[j], lines[j + 1]] + after.kept, after.removed)
  {
    var after := Filter(lines, drop, j + 2);
    if drop(lines[j]) {
      assert [] + after.kept == after.kept;
    } else {
      assert Filter(lines, drop, j + 1) == Pass([lines[j + 1]] + after.kept, after.removed);
      assert [lines[j]] + ([lines[j + 1]] + after.kept) == [lines[j], lines[j + 1]] + after.kept;
    }
  }

  /** The address line of a well-formed channel is never excluded. */
  lemma AddressKept(c: Channel, excludedLower: seq<string>)
    requires IsChannel(c)
    ensures !Excluded(c.address, excludedLower)
  {
    ChannelSeen(c);
  }

  /** The surviving channels of a run, one channel at a time. */
  lemma SurvivorsCons(cs: seq<Channel>, drop: string -> bool)
    requires cs != []
    ensures var rest := Survivors(cs[1..], drop);
            var survivors := Survivors(cs, drop);
            if drop(cs[0].info) then survivors == rest
            else ChannelLines(survivors) == [cs[0].info, cs[0].address] + ChannelLines(rest) &&
                 |survivors| == 1 + |rest|
  {
    var rest := Survivors(cs[1..], drop);
    if !drop(cs[0].info) {
      assert Survivors(cs, drop) == [cs[0]] + rest;
      assert ([cs[0]] + rest)[1..] == rest;
    }
  }

  /** One channel's contribution to the filter, as counts and lines only. */
  lemma ChannelCount(here: Pass, after: Pass, cs: seq<Channel>, tail: seq<string>, drop: string -> bool)
    requires cs != []
    requires here == if drop(cs[0].info) then Pass(after.kept, after.removed + 1)
                     else Pass([cs[0].info, cs[0].address] + after.kept, after.removed)
    requires var rest := Survivors(cs[1..], drop);
             after == Pass(ChannelLines(rest) + tail, |cs[1..]| - |rest|)
    ensures var survivors := Survivors(cs, drop);
            here == Pass(ChannelLines(survivors) + tail, |cs| - |survivors|)
  {
    SurvivorsCons(cs, drop);
    var rest := Survivors(cs[1..], drop);
    if drop(cs[0].info) {
      assert Survivors(cs, drop) == rest;
    } else {
      var pair := [cs[0].info, cs[0].address];
      assert ChannelLines(Survivors(cs, drop)) == pair + ChannelLines(rest);
      Concat3(pair, ChannelLines(rest), tail);
    }
  }

  /** The rule keeps the address line of every channel of `cs`. */
  predicate AddressesKept(cs: seq<Channel>, drop: string -> bool)
    decreases |cs|
  {
    cs == [] || (!drop(cs[0].address) && AddressesKept(cs[1..], drop))
  }

  lemma {:induction false} AllAddressesKept(cs: seq<Channel>, excludedLower: seq<string>)
    requires forall k :: 0 <= k < |cs| ==> IsChannel(cs[k])
    ensures AddressesKept(cs, Rule(excludedLower))
    decreases |cs|
  {
    if cs != [] {
      AddressKept(cs[0], excludedLower);
      AllAddressesKept(cs[1..], excludedLower);
    }
  }

  /** The rule drops none of the lines `ls`. */
  predicate KeepsAll(ls: seq<string>, drop: string -> bool) {
    forall k :: 0 <= k < |ls| ==> !drop(ls[k])
  }

  /** Lines the rule does not drop are all kept, with nothing counted. */
  lemma TailKept(lines: seq<string>, j: nat, tail: seq<string>, drop: string -> bool)
    requires j <= |lines| && lines[j..] == tail && KeepsAll(tail, drop)
    ensures Filter(lines, drop, j) == Pass(tail, 0)
  {
    forall k | j <= k < |lines| ensures !drop(lines[k]) {
      assert lines[k] == tail[k - j];
    }
    NothingDroppedKeepsAll(lines, drop, j);
  }

  /** The lines from index `j` on are those of the channels `cs` followed by
      `tail`, and a channel in first place does not start with a header. */
  predicate ChannelsFrom(lines: seq<string>, j: nat, cs: seq<Channel>, tail: seq<string>) {
    j <= |lines| && lines[j..] == ChannelLines(cs) + tail &&
    (j == 0 ==> cs == [] || !IsHeader(cs[0].info))
  }

  /** The filter at the first channel of a run. */
  lemma FirstChannel(lines: seq<string>, j: nat, cs: seq<Channel>, tail: seq<string>, drop: string -> bool)
    requires ChannelsFrom(lines, j, cs, tail) && cs != [] && AddressesKept(cs, drop)
    ensures ChannelsFrom(lines, j + 2, cs[1..], tail) && AddressesKept(cs[1..], drop)
    ensures var after := Filter(lines, drop, j + 2);
            Filter(lines, drop, j) ==
              if drop(cs[0].info) then Pass(after.kept, after.removed + 1)
              else Pass([cs[0].info, cs[0].address] + after.kept, after.removed)
  {
    ChannelLinesCons(lines, j, cs, tail);
    ChannelStep(lines, drop, j);
  }

  /** The filter from index `j` on, where the lines from `j` on are those of
      well-formed channels followed by lines the rule keeps. */
  lemma {:induction false} ChannelsFilteredFrom(lines: seq<string>, j: nat, cs: seq<Channel>, tail: seq<string>,
                                                drop: string -> bool)
    requires ChannelsFrom(lines, j, cs, tail) && AddressesKept(cs, drop) && KeepsAll(tail, drop)
    ensures var survivors := Survivors(cs, drop);
            Filter(lines, drop, j) == Pass(ChannelLines(survivors) + tail, |cs| - |survivors|)
    decreases |cs|
  {
    if cs != [] {
      FirstChannel(lines, j, cs, tail, drop);
      ChannelsFilteredFrom(lines, j + 2, cs[1..], tail, drop);
      ChannelCount(Filter(lines, drop, j), Filter(lines, drop, j + 2), cs, tail, drop);
    } else {
      TailKept(lines, j, tail, drop);
    }
  }

  /** A playlist made of an optional header, well-formed channels, and lines
      that are not `#EXTINF:` lines comes out as the header, exactly the
      channels whose group is not excluded, each still paired with its
      address, and the trailing lines; the count is the number of the other
      channels. */
  lemma ChannelsFiltered(head: seq<string>, cs: seq<Channel>, tail: seq<string>, excludedLower: seq<string>)
    requires head == [] || (|head| == 1 && IsHeader(head[0]))
    requires forall k :: 0 <= k < |cs| ==> IsChannel(cs[k])
    requires forall k :: 0 <= k < |tail| ==> !IsInfo(tail[k])
    ensures var survivors := Survivors(cs, Rule(excludedLower));
            Filter(head + ChannelLines(cs) + tail, Rule(excludedLower), 0) ==
              Pass(head + ChannelLines(survivors) + tail, |cs| - |survivors|)
  {
    var drop := Rule(excludedLower);
    var lines := head + ChannelLines(cs) + tail;
    var out := ChannelLines(Survivors(cs, drop));
    Concat3(head, ChannelLines(cs), tail);
    if cs != [] {
      ChannelSeen(cs[0]);
    }
    assert ChannelsFrom(lines, |head|, cs, tail);
    AllAddressesKept(cs, excludedLower);
    TailNotExcluded(tail, excludedLower);
    ChannelsFilteredFrom(lines, |head|, cs, tail, drop);
    var rest := Filter(lines, drop, |head|);
    Concat3(head, out, tail);
    if head != [] {
      HeaderKept(lines, drop);
      assert head == [lines[0]];
      assert Filter(lines, drop, 0) == Pass(head + rest.kept, rest.removed);
    } else {
      assert Filter(lines, drop, 0) == rest;
      assert head + out + tail == out + tail;
    }
  }

  /** Lines that are not `#EXTINF:` lines are never excluded. */
  lemma TailNotExcluded(tail: seq<string>, excludedLower: seq<string>)
    requires forall k :: 0 <= k < |tail| ==> !IsInfo(tail[k])
    ensures KeepsAll(tail, Rule(excludedLower))
  {
  }

  /** A header in first place is kept, and the loop goes on after it. */
  lemma HeaderKept(lines: seq<string>, drop: string -> bool)
    requires |lines| > 0 && IsHeader(lines[0])
    ensures var rest := Filter(lines, drop, 1);
            Filter(lines, drop, 0) == Pass([lines[0]] + rest.kept, rest.removed)
  {
  }

  /** The same for the text of such a playlist ending in a newline, as the
      script splits it: the empty piece after the last newline is kept. */
  lemma PlaylistFiltered(head: seq<string>, cs: seq<Channel>, excludedLower: seq<string>)
    requires head == [] || (|head| == 1 && IsHeader(head[0]) && '\n' !in head[0])
    requires head != [] || cs != []
    requires forall k :: 0 <= k < |cs| ==> IsChannel(cs[k])
    ensures var survivors := Survivors(cs, Rule(excludedLower));
            Filter(Split(Join(head + ChannelLines(cs)) + "\n"), Rule(excludedLower), 0) ==
              Pass(head + ChannelLines(survivors) + [[]], |cs| - |survivors|)
  {
    PlaylistLines(head, cs);
    assert !IsInfo([]) by {
      assert Trim([]) == [];
    }
    ChannelsFiltered(head, cs, [[]], excludedLower);
  }
}
