/** Putting a release into the roadmap source, line by line. */
module Roadmap {
  /** A stretch of code or prose; `UNRELEASED` is what a release replaces. */
  datatype Part = Text(text: string) | Unreleased | ChangelogLink(version: string, date: string)

  datatype Line =
    | ReleasesOpen
    | Release(version: string, date: string, tagged: bool)
    | RoadmapOpen
    | ListEnd
    | ItemOpen
    | ItemClose
    | StatusMerged
    | MergedMark
    | ReleasedMark
    | NoneNote(version: string)
    | ReleasedOpen(version: string)
    | ReleasedClose
    | ReconciledOpen
    | Date(date: string)
    | Revision(revision: string)
    | Blank
    | Comment(parts: seq<Part>)
    | Code(parts: seq<Part>)

  datatype RoadmapSync = RoadmapSync(version: string, date: string, tags: set<string>, revision: string)

  datatype Error = NoReleases | NoRoadmap | UnclosedItem | NoReleasedMark

  datatype Result<T> = Ok(value: T) | Err(error: Error)

  // ----- searching -----

  datatype Sought = Releases | Roadmap | Close | Merged | Released

  predicate Is(l: Line, what: Sought) {
    match what
    case Releases => l.ReleasesOpen?
    case Roadmap => l.RoadmapOpen?
    case Close => l.ItemClose?
    case Merged => l.MergedMark?
    case Released => l.ReleasedMark?
  }

  /** The first such line from i on, or the length. */
  function Find(ls: seq<Line>, what: Sought, i: nat): (r: nat)
    requires i <= |ls|
    ensures i <= r <= |ls|
    ensures r < |ls| ==> Is(ls[r], what)
    ensures forall j :: i <= j < r ==> !Is(ls[j], what)
    decreases |ls| - i
  {
    if i == |ls| || Is(ls[i], what) then i else Find(ls, what, i + 1)
  }

  // ----- the release list -----

  predicate HasTag(s: RoadmapSync, version: string) { "v" + version in s.tags }

  predicate Listed(ls: seq<Line>, version: string) { exists l :: l in ls && l.Release? && l.version == version }

  function Tag(l: Line, s: RoadmapSync): Line {
    if l.Release? && !l.tagged && HasTag(s, l.version) then l.(tagged := true) else l
  }

  function MarkTagged(ls: seq<Line>, s: RoadmapSync): seq<Line> {
    if ls == [] then [] else [Tag(ls[0], s)] + MarkTagged(ls[1..], s)
  }

  /** With releasesAt the line that opens the list. */
  function ListRelease(ls: seq<Line>, releasesAt: nat, s: RoadmapSync): seq<Line>
    requires releasesAt < |ls|
  {
    if Listed(ls, s.version) then ls
    else ls[..releasesAt + 1] + [Release(s.version, s.date, HasTag(s, s.version))] + ls[releasesAt + 1..]
  }

  // ----- taking merged items out -----

  /** A removed item, and how many lines were kept since the one before it. */
  datatype Item = Item(gap: nat, body: seq<Line>)

  datatype Extracted = Extracted(kept: seq<Line>, items: seq<Item>)

  function KeepFirst(l: Line, r: Result<Extracted>): Result<Extracted> {
    match r
    case Err(e) => Err(e)
    case Ok(e) =>
      Ok(Extracted([l] + e.kept, if e.items == [] then [] else [Item(e.items[0].gap + 1, e.items[0].body)] + e.items[1..]))
  }

  function TakeItem(body: seq<Line>, r: Result<Extracted>): Result<Extracted> {
    match r
    case Err(e) => Err(e)
    case Ok(e) => Ok(Extracted(e.kept, [Item(0, body)] + e.items))
  }

  /** Removes every merged item before the end of the list. An item reaches from
      its opening line to the next closing line; one that stays is scanned again
      from its second line. */
  function Extract(ls: seq<Line>): Result<Extracted>
    decreases |ls|
  {
    if ls == [] || ls[0] == ListEnd then Ok(Extracted(ls, []))
    else if ls[0] != ItemOpen then KeepFirst(ls[0], Extract(ls[1..]))
    else
      var close := Find(ls, Close, 1);
      if close == |ls| then Err(UnclosedItem)
      else if StatusMerged in ls[..close + 1] then TakeItem(ls[1..close], Extract(ls[close + 1..]))
      else KeepFirst(ls[0], Extract(ls[1..]))
  }

  // ----- and putting them under the release -----

  function LinkParts(parts: seq<Part>, s: RoadmapSync): seq<Part> {
    if parts == [] then []
    else [if parts[0] == Unreleased then ChangelogLink(s.version, s.date) else parts[0]] + LinkParts(parts[1..], s)
  }

  function Link(l: Line, s: RoadmapSync): Line {
    match l
    case Comment(parts) => Comment(LinkParts(parts, s))
    case Code(parts) => Code(LinkParts(parts, s))
    case _ => l
  }

  function Publish(body: seq<Line>, s: RoadmapSync): seq<Line> {
    if body == [] then []
    else (if body[0] == StatusMerged then [] else [Link(body[0], s)]) + Publish(body[1..], s)
  }

  function ReleasedItem(body: seq<Line>, s: RoadmapSync): seq<Line> {
    [ReleasedOpen(s.version)] + Publish(body, s) + [ReleasedClose]
  }

  function Moved(items: seq<Item>, s: RoadmapSync): seq<Line> {
    if items == [] then [] else ReleasedItem(items[0].body, s) + Moved(items[1..], s)
  }

  function DropNotes(ls: seq<Line>): seq<Line> {
    if ls == [] then [] else (if ls[0].NoneNote? then [] else [ls[0]]) + DropNotes(ls[1..])
  }

  predicate IsCode(l: Line) {
    !l.Blank? && !l.Comment? && !l.NoneNote? && !l.MergedMark? && !l.ReleasedMark?
  }

  function Min(a: int, b: int): int { if a <= b then a else b }

  function Max(a: int, b: int): int { if a >= b then a else b }

  /** What lies between the merged mark and the next released mark; without one,
      everything up to the last line. */
  function Between(ls: seq<Line>, mergedAt: nat): seq<Line> {
    var from := Min(mergedAt + 1, |ls|);
    var mark := Find(ls, Released, from);
    ls[from..Max(from, if mark < |ls| then mark else |ls| - 1)]
  }

  function AddNote(ls: seq<Line>, mergedAt: nat, s: RoadmapSync): seq<Line> {
    if exists l :: l in Between(ls, mergedAt) && IsCode(l) then ls else
      var at := Min(mergedAt + 1, |ls|);
      ls[..at] + [NoneNote(s.version)] + ls[at..]
  }

  /** The lines after the one that opens the roadmap. */
  function SyncTail(tail: seq<Line>, s: RoadmapSync): Result<seq<Line>> {
    match Extract(tail)
    case Err(e) => Err(e)
    case Ok(e) =>
      var mergedAt := Find(e.kept, Merged, 0);
      var k := DropNotes(e.kept);
      var releasedAt := Find(k, Released, 0);
      if releasedAt == |k| then Err(NoReleasedMark) else
        var base := k[..releasedAt + 1] + Moved(e.items, s) + k[releasedAt + 1..];
        Ok(if mergedAt < |e.kept| then AddNote(base, mergedAt, s) else base)
  }

  // ----- the reconciliation record -----

  function StampDate(ls: seq<Line>, date: string): seq<Line> {
    if |ls| < 2 then ls
    else if ls[0].ReconciledOpen? && ls[1].Date? then [ls[0], Date(date)] + ls[2..]
    else [ls[0]] + StampDate(ls[1..], date)
  }

  /** The line is preceded by a line break, so the first line does not count. */
  function StampRevision(ls: seq<Line>, revision: string): seq<Line> {
    if |ls| < 2 then ls
    else if ls[1].Revision? then [ls[0], Revision(revision)] + ls[2..]
    else [ls[0]] + StampRevision(ls[1..], revision)
  }

  function Stamp(ls: seq<Line>, s: RoadmapSync): seq<Line> { StampRevision(StampDate(ls, s.date), s.revision) }

  // ----- the whole file -----

  function Prepare(source: seq<Line>, s: RoadmapSync): Result<seq<Line>> {
    var releasesAt := Find(source, Releases, 0);
    if releasesAt == |source| then Err(NoReleases)
    else Ok(MarkTagged(ListRelease(source, releasesAt, s), s))
  }

  function Synced(source: seq<Line>, s: RoadmapSync): Result<seq<Line>> {
    match Prepare(source, s)
    case Err(e) => Err(e)
    case Ok(lines) =>
      var roadmapAt := Find(lines, Roadmap, 0);
      if roadmapAt == |lines| then Err(NoRoadmap) else
        match SyncTail(lines[roadmapAt + 1..], s)
        case Err(e) => Err(e)
        case Ok(tail) => Ok(Stamp(lines[..roadmapAt + 1] + tail, s))
  }

  // ----- the splicing code -----

  lemma {:induction false} FindShift(front: seq<Line>, ls: seq<Line>, what: Sought, i: nat)
    requires i <= |ls|
    ensures Find(front + ls, what, |front| + i) == |front| + Find(ls, what, i)
    decreases |ls| - i
  {
    if i < |ls| {
      assert (front + ls)[|front| + i] == ls[i];
      if !Is(ls[i], what) { FindShift(front, ls, what, i + 1); }
    }
  }

  /** Having kept `kept` and moved `moved`, with `rest` to go. */
  ghost predicate Continues(tail: seq<Line>, kept: seq<Line>, moved: seq<Line>, rest: seq<Line>, s: RoadmapSync) {
    match Extract(rest)
    case Err(e) => Extract(tail) == Err(e)
    case Ok(e) =>
      && Extract(tail).Ok?
      && Extract(tail).value.kept == kept + e.kept
      && Moved(Extract(tail).value.items, s) == moved + Moved(e.items, s)
  }

  lemma ContinueKeeping(tail: seq<Line>, kept: seq<Line>, moved: seq<Line>, rest: seq<Line>, s: RoadmapSync)
    requires Continues(tail, kept, moved, rest, s)
    requires rest != [] && Extract(rest) == KeepFirst(rest[0], Extract(rest[1..]))
    ensures Continues(tail, kept + [rest[0]], moved, rest[1..], s)
  {
    hide Extract, ReleasedItem;
    if Extract(rest[1..]).Ok? {
      var e, f := Extract(rest[1..]).value, Extract(rest).value;
      assert kept + ([rest[0]] + e.kept) == kept + [rest[0]] + e.kept;
      if e.items != [] {
        assert f.items[1..] == e.items[1..];
      }
    }
  }

  lemma ContinueTaking(tail: seq<Line>, kept: seq<Line>, moved: seq<Line>, rest: seq<Line>, body: seq<Line>,
      after: seq<Line>, s: RoadmapSync)
    requires Continues(tail, kept, moved, rest, s)
    requires Extract(rest) == TakeItem(body, Extract(after))
    ensures Continues(tail, kept, moved + ReleasedItem(body, s), after, s)
  {
    hide Extract, ReleasedItem;
    if Extract(after).Ok? {
      var e, f := Extract(after).value, Extract(rest).value;
      assert f.items[1..] == e.items;
      assert moved + (ReleasedItem(body, s) + Moved(e.items, s)) == moved + ReleasedItem(body, s) + Moved(e.items, s);
    }
  }

  lemma PublishedItem(body: seq<Line>, s: RoadmapSync)
    ensures ReleasedItem(body, s) == [ReleasedOpen(s.version)] + Publish(body, s) + [ReleasedClose]
  {
  }

  lemma InnerSlice(ls: seq<Line>, i: nat, j: nat)
    requires i + 2 <= j <= |ls|
    ensures ls[i..j][1..j - i - 1] == ls[i + 1..j - 1]
  {
    var a, b := ls[i..j][1..j - i - 1], ls[i + 1..j - 1];
    assert |a| == |b| && forall k :: 0 <= k < |a| ==> a[k] == b[k];
  }

  lemma ContinueStart(tail: seq<Line>, s: RoadmapSync)
    ensures Continues(tail, [], [], tail, s)
  {
    hide Extract, Moved;
    if Extract(tail).Ok? {
      var e := Extract(tail).value;
      assert [] + e.kept == e.kept && [] + Moved(e.items, s) == Moved(e.items, s);
    }
  }

  lemma ContinueUnclosed(tail: seq<Line>, kept: seq<Line>, moved: seq<Line>, rest: seq<Line>, s: RoadmapSync)
    requires Continues(tail, kept, moved, rest, s) && Extract(rest) == Err(UnclosedItem)
    ensures Extract(tail) == Err(UnclosedItem)
  {
  }

  lemma ContinueDone(tail: seq<Line>, kept: seq<Line>, moved: seq<Line>, rest: seq<Line>, s: RoadmapSync)
    requires Continues(tail, kept, moved, rest, s) && Extract(rest) == Ok(Extracted(rest, []))
    ensures Extract(tail).Ok? && Extract(tail).value.kept == kept + rest && Moved(Extract(tail).value.items, s) == moved
  {
    hide Extract;
    assert moved + [] == moved;
  }

  /** One turn of the loop on an opening line. */
  lemma TakeStep(lines: seq<Line>, i: nat, close: nat)
    requires i < |lines| && lines[i] == ItemOpen && close == Find(lines, Close, i + 1) && close < |lines|
    ensures i + 1 <= close
    ensures StatusMerged in lines[i..close + 1] ==>
      Extract(lines[i..]) == TakeItem(lines[i + 1..close], Extract(lines[close + 1..]))
    ensures StatusMerged !in lines[i..close + 1] ==>
      Extract(lines[i..]) == KeepFirst(lines[i], Extract(lines[i + 1..]))
  {
    hide Extract, KeepFirst, TakeItem, Find;
    var rest := lines[i..];
    assert lines == lines[..i] + rest;
    FindShift(lines[..i], rest, Close, 1);
    ExtractStep(rest);
    var c := close - i;
    assert rest[..c + 1] == lines[i..close + 1] && rest[1..c] == lines[i + 1..close] && rest[c + 1..] == lines[close + 1..];
    assert rest[1..] == lines[i + 1..];
  }

  lemma UnclosedStep(lines: seq<Line>, i: nat)
    requires i < |lines| && lines[i] == ItemOpen && Find(lines, Close, i + 1) == |lines|
    ensures Extract(lines[i..]) == Err(UnclosedItem)
  {
    hide Find;
    var rest := lines[i..];
    assert lines == lines[..i] + rest;
    FindShift(lines[..i], rest, Close, 1);
  }

  lemma KeepStep(lines: seq<Line>, i: nat)
    requires i < |lines| && lines[i] != ItemOpen && lines[i] != ListEnd
    ensures Extract(lines[i..]) == KeepFirst(lines[i], Extract(lines[i + 1..]))
  {
    assert lines[i..][1..] == lines[i + 1..];
  }

  lemma SpliceOut(ls: seq<Line>, start: nat, i: nat, after: nat)
    requires start <= i <= after <= |ls|
    ensures var rest := ls[..i] + ls[after..];
      rest[start..i] == ls[start..i] && rest[i..] == ls[after..] && rest[..start] == ls[..start]
  {
  }

  lemma StepOver(ls: seq<Line>, start: nat, i: nat)
    requires start <= i < |ls|
    ensures ls[i..][0] == ls[i] && ls[i..][1..] == ls[i + 1..] && ls[start..i] + [ls[i]] == ls[start..i + 1]
  {
  }

  lemma Rejoin(ls: seq<Line>, start: nat, i: nat)
    requires start <= i <= |ls|
    ensures ls[..start] + (ls[start..i] + ls[i..]) == ls
  {
  }

  /** The lines that are left and the lines to be put under the release. */
  datatype Moving = Moving(lines: seq<Line>, moved: seq<Line>)

  /** The loop over the items: lines and moved are updated in place. */
  method MoveItems(source: seq<Line>, start: nat, s: RoadmapSync) returns (r: Result<Moving>)
    requires start <= |source|
    ensures r.Ok? <==> Extract(source[start..]).Ok?
    ensures r.Err? ==> r.error == Extract(source[start..]).error
    ensures r.Ok? ==>
      r.value == Moving(source[..start] + Extract(source[start..]).value.kept, Moved(Extract(source[start..]).value.items, s))
  {
    hide Extract, Publish, Continues, KeepFirst, TakeItem, Moved, ReleasedItem, Find;
    var lines, moved, i := source, [], start;
    ghost var tail := source[start..];
    ContinueStart(tail, s);
    assert lines[start..i] == [] && lines[i..] == tail;
    while i < |lines|
      invariant start <= i <= |lines| && lines[..start] == source[..start]
      invariant Continues(tail, lines[start..i], moved, lines[i..], s)
      decreases |lines| - i
    {
      if lines[i] == ListEnd {
        break;
      }
      if lines[i] == ItemOpen {
        var close := Find(lines, Close, i + 1);
        if close == |lines| {
          UnclosedStep(lines, i);
          ContinueUnclosed(tail, lines[start..i], moved, lines[i..], s);
          return Err(UnclosedItem);
        }
        TakeStep(lines, i, close);
        var block := lines[i..close + 1];
        if StatusMerged in block {
          InnerSlice(lines, i, close + 1);
          ContinueTaking(tail, lines[start..i], moved, lines[i..], lines[i + 1..close], lines[close + 1..], s);
          moved := moved + ([ReleasedOpen(s.version)] + Publish(block[1..close - i], s) + [ReleasedClose]);
          PublishedItem(lines[i + 1..close], s);
          SpliceOut(lines, start, i, close + 1);
          lines := lines[..i] + lines[close + 1..];
          continue;
        }
      } else {
        KeepStep(lines, i);
      }
      StepOver(lines, start, i);
      ContinueKeeping(tail, lines[start..i], moved, lines[i..], s);
      i := i + 1;
    }
    ExtractStep(lines[i..]);
    ContinueDone(tail, lines[start..i], moved, lines[i..], s);
    Rejoin(lines, start, i);
    r := Ok(Moving(lines, moved));
  }

  /** One unfolding of Extract. */
  lemma ExtractStep(ls: seq<Line>)
    ensures ls == [] || ls[0] == ListEnd ==> Extract(ls) == Ok(Extracted(ls, []))
    ensures ls != [] && ls[0] != ListEnd && ls[0] != ItemOpen ==> Extract(ls) == KeepFirst(ls[0], Extract(ls[1..]))
    ensures ls != [] && ls[0] == ItemOpen ==>
      var close := Find(ls, Close, 1);
      if close == |ls| then Extract(ls) == Err(UnclosedItem)
      else if StatusMerged in ls[..close + 1] then Extract(ls) == TakeItem(ls[1..close], Extract(ls[close + 1..]))
      else Extract(ls) == KeepFirst(ls[0], Extract(ls[1..]))
  {
  }

  lemma BetweenShift(front: seq<Line>, ls: seq<Line>, mergedAt: nat)
    requires ls != []
    ensures Between(front + ls, |front| + mergedAt) == Between(ls, mergedAt)
  {
    var from := Min(mergedAt + 1, |ls|);
    FindShift(front, ls, Released, from);
    assert Min(|front| + mergedAt + 1, |front + ls|) == |front| + from;
    var mark := Find(ls, Released, from);
    SliceShift(front, ls, from, Max(from, if mark < |ls| then mark else |ls| - 1));
  }

  lemma SliceShift(front: seq<Line>, ls: seq<Line>, i: nat, j: nat)
    requires i <= j <= |ls|
    ensures (front + ls)[|front| + i..|front| + j] == ls[i..j]
  {
  }

  lemma AddNoteShift(front: seq<Line>, ls: seq<Line>, mergedAt: nat, s: RoadmapSync)
    requires ls != []
    ensures AddNote(front + ls, |front| + mergedAt, s) == front + AddNote(ls, mergedAt, s)
  {
    hide Between, IsCode;
    BetweenShift(front, ls, mergedAt);
    var at := Min(mergedAt + 1, |ls|);
    assert (front + ls)[..|front| + at] == front + ls[..at] && (front + ls)[|front| + at..] == ls[at..];
  }

  /** The second half, with indices into the whole file. */
  method InsertMoved(source: seq<Line>, start: nat, moved: seq<Line>, s: RoadmapSync) returns (r: Result<seq<Line>>)
    requires start <= |source|
    ensures var kept := source[start..]; var k := DropNotes(kept);
      var mergedAt, releasedAt := Find(kept, Merged, 0), Find(k, Released, 0);
      if releasedAt == |k| then r == Err(NoReleasedMark) else
        var base := k[..releasedAt + 1] + moved + k[releasedAt + 1..];
        r == Ok(source[..start] + if mergedAt < |kept| then AddNote(base, mergedAt, s) else base)
  {
    hide Find, DropNotes, AddNote, Between;
    ghost var front, kept := source[..start], source[start..];
    var k := DropNotes(source[start..]);
    assert source == front + kept;
    var mergedAt := Find(source, Merged, start);
    FindShift(front, kept, Merged, 0);
    var hasMerged := mergedAt < |source|;
    var lines := source[..start] + k;
    var releasedAt := Find(lines, Released, start);
    FindShift(front, k, Released, 0);
    if releasedAt == |lines| {
      return Err(NoReleasedMark);
    }
    lines := lines[..releasedAt + 1] + moved + lines[releasedAt + 1..];
    ghost var at := releasedAt - start;
    ghost var base := k[..at + 1] + moved + k[at + 1..];
    assert (front + k)[..releasedAt + 1] == front + k[..at + 1] && (front + k)[releasedAt + 1..] == k[at + 1..];
    assert lines == front + base;
    if hasMerged {
      AddNoteShift(front, base, mergedAt - start, s);
      lines := AddNote(lines, mergedAt, s);
    }
    r := Ok(lines);
  }

  method SyncRoadmap(source: seq<Line>, s: RoadmapSync) returns (r: Result<seq<Line>>)
    ensures r == Synced(source, s)
  {
    hide Find, Extract, MarkTagged, Moved, DropNotes, AddNote, Stamp, Listed;
    var lines := source;
    var releasesAt := Find(lines, Releases, 0);
    if releasesAt == |lines| {
      return Err(NoReleases);
    }
    if !Listed(lines, s.version) {
      lines := lines[..releasesAt + 1] + [Release(s.version, s.date, HasTag(s, s.version))] + lines[releasesAt + 1..];
    }
    lines := MarkTagged(lines, s);
    var roadmapAt := Find(lines, Roadmap, 0);
    if roadmapAt == |lines| {
      return Err(NoRoadmap);
    }
    ghost var front, tail := lines[..roadmapAt + 1], lines[roadmapAt + 1..];
    var moving := MoveItems(lines, roadmapAt + 1, s);
    if moving.Err? {
      return Err(moving.error);
    }
    var moved;
    lines, moved := moving.value.lines, moving.value.moved;
    assert lines[..roadmapAt + 1] == front && lines[roadmapAt + 1..] == Extract(tail).value.kept;
    var inserted := InsertMoved(lines, roadmapAt + 1, moved, s);
    if inserted.Err? {
      return inserted;
    }
    r := Ok(Stamp(inserted.value, s));
  }
}
