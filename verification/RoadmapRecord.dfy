/** What a run writes: the stamped record, the items under the release, the tags,
    and when it refuses to run. */
module RoadmapRecord {
  import opened Roadmap
  import opened RoadmapResync
  import opened RoadmapFile

  // ----- the reconciliation record -----

  /** Line i is a date right after an opening record. */
  predicate DateAt(ls: seq<Line>, i: int) {
    0 < i < |ls| && ls[i - 1].ReconciledOpen? && ls[i].Date?
  }

  predicate RevisionAt(ls: seq<Line>, i: int) { 0 < i < |ls| && ls[i].Revision? }

  ghost predicate FirstDate(ls: seq<Line>, i: int) { DateAt(ls, i) && forall j :: j < i ==> !DateAt(ls, j) }

  ghost predicate FirstRevision(ls: seq<Line>, i: int) { RevisionAt(ls, i) && forall j :: j < i ==> !RevisionAt(ls, j) }

  lemma {:induction false} StampDateAt(ls: seq<Line>, date: string, i: nat)
    requires i < |ls|
    ensures |StampDate(ls, date)| == |ls|
    ensures StampDate(ls, date)[i] == if FirstDate(ls, i) then Date(date) else ls[i]
  {
    hide FirstDate;
    if |ls| < 2 {
      ShortHasNone(ls, i);
    } else if DateAt(ls, 1) {
      FirstIsOne(ls, i);
    } else {
      StampDateLater(ls, i);
      if i == 0 { StampDateAt(ls[1..], date, 0); } else { StampDateAt(ls[1..], date, i - 1); }
    }
  }

  lemma ShortHasNone(ls: seq<Line>, i: int)
    requires |ls| < 2
    ensures !FirstDate(ls, i) && !FirstRevision(ls, i)
  {
  }

  lemma FirstIsOne(ls: seq<Line>, i: nat)
    requires DateAt(ls, 1)
    ensures FirstDate(ls, i) <==> i == 1
  {
  }

  lemma StampDateLater(ls: seq<Line>, i: nat)
    requires |ls| >= 2 && !DateAt(ls, 1)
    ensures FirstDate(ls, i) <==> i > 0 && FirstDate(ls[1..], i - 1)
  {
    var t := ls[1..];
    assert forall j :: j > 0 ==> (DateAt(t, j) <==> DateAt(ls, j + 1));
    if i > 0 && FirstDate(t, i - 1) {
      forall j | j < i ensures !DateAt(ls, j) {
        if j > 1 { assert !DateAt(t, j - 1); }
      }
    }
    if FirstDate(ls, i) {
      forall j | j < i - 1 ensures !DateAt(t, j) { assert !DateAt(ls, j + 1); }
    }
  }

  lemma {:induction false} StampRevisionAt(ls: seq<Line>, revision: string, i: nat)
    requires i < |ls|
    ensures |StampRevision(ls, revision)| == |ls|
    ensures StampRevision(ls, revision)[i] == if FirstRevision(ls, i) then Revision(revision) else ls[i]
  {
    hide FirstRevision;
    if |ls| < 2 {
      ShortHasNone(ls, i);
    } else if ls[1].Revision? {
      FirstRevisionIsOne(ls, i);
    } else {
      StampRevisionLater(ls, i);
      if i == 0 { StampRevisionAt(ls[1..], revision, 0); } else { StampRevisionAt(ls[1..], revision, i - 1); }
    }
  }

  lemma FirstRevisionIsOne(ls: seq<Line>, i: nat)
    requires RevisionAt(ls, 1)
    ensures FirstRevision(ls, i) <==> i == 1
  {
  }

  lemma StampRevisionLater(ls: seq<Line>, i: nat)
    requires |ls| >= 2 && !ls[1].Revision?
    ensures FirstRevision(ls, i) <==> i > 0 && FirstRevision(ls[1..], i - 1)
  {
    var t := ls[1..];
    assert forall j :: j > 0 ==> (RevisionAt(t, j) <==> RevisionAt(ls, j + 1));
    if i > 0 && FirstRevision(t, i - 1) {
      forall j | j < i ensures !RevisionAt(ls, j) {
        if j > 1 { assert !RevisionAt(t, j - 1); }
      }
    }
    if FirstRevision(ls, i) {
      forall j | j < i - 1 ensures !RevisionAt(t, j) { assert !RevisionAt(ls, j + 1); }
    }
  }

  /** Stamping writes the date after the first opened record and the first revision
      that is not on the first line, and leaves every other line alone. */
  lemma StampRecords(ls: seq<Line>, s: RoadmapSync, i: nat)
    requires i < |ls|
    ensures |Stamp(ls, s)| == |ls|
    ensures Stamp(ls, s)[i] ==
      if FirstDate(ls, i) then Date(s.date) else if FirstRevision(ls, i) then Revision(s.revision) else ls[i]
  {
    hide FirstDate, FirstRevision, StampDate, StampRevision;
    var d := StampDate(ls, s.date);
    StampDateAt(ls, s.date, i);
    StampRevisionAt(d, s.revision, i);
    SameRevisions(ls, s.date, i);
    FirstKinds(ls, i);
  }

  lemma FirstKinds(ls: seq<Line>, i: int)
    ensures FirstDate(ls, i) ==> ls[i].Date?
    ensures FirstRevision(ls, i) ==> ls[i].Revision?
  {
  }

  lemma SameRevisions(ls: seq<Line>, date: string, i: nat)
    requires i < |ls|
    ensures FirstRevision(StampDate(ls, date), i) <==> FirstRevision(ls, i)
  {
    hide StampDate, FirstDate;
    var d := StampDate(ls, date);
    StampDateAt(ls, date, i);
    forall j ensures RevisionAt(d, j) <==> RevisionAt(ls, j) {
      if 0 < j < |ls| {
        StampDateAt(ls, date, j);
        FirstKinds(ls, j);
      }
    }
  }

  // ----- the items under the release -----

  /** A part as it stands under a release: what was unreleased links to it. */
  function Released(p: Part, s: RoadmapSync): Part { if p.Unreleased? then ChangelogLink(s.version, s.date) else p }

  lemma {:induction false} LinkedParts(parts: seq<Part>, s: RoadmapSync)
    ensures |LinkParts(parts, s)| == |parts|
    ensures forall i :: 0 <= i < |parts| ==> LinkParts(parts, s)[i] == Released(parts[i], s)
  {
    if parts != [] { LinkedParts(parts[1..], s); }
  }

  /** Line m is line l as it stands under the release. */
  ghost predicate Becomes(l: Line, m: Line, s: RoadmapSync) {
    if l.Comment? then m.Comment? && SameParts(l.parts, m.parts, s)
    else if l.Code? then m.Code? && SameParts(l.parts, m.parts, s)
    else m == l
  }

  ghost predicate SameParts(parts: seq<Part>, linked: seq<Part>, s: RoadmapSync) {
    |linked| == |parts| && forall i :: 0 <= i < |parts| ==> linked[i] == Released(parts[i], s)
  }

  lemma LinkBecomes(l: Line, s: RoadmapSync)
    ensures Becomes(l, Link(l, s), s)
  {
    hide LinkParts;
    if l.Comment? || l.Code? { LinkedParts(l.parts, s); }
  }

  /** The lines of an item that stay when it is released: all but its status. */
  function Unstatused(body: seq<Line>): seq<Line> {
    if body == [] then []
    else Unstatused(body[..|body| - 1]) + (if body[|body| - 1].StatusMerged? then [] else [body[|body| - 1]])
  }

  lemma {:induction false} PublishAppend(body: seq<Line>, l: Line, s: RoadmapSync)
    ensures Publish(body + [l], s) == Publish(body, s) + (if l.StatusMerged? then [] else [Link(l, s)])
  {
    hide Link;
    if body == [] {
      assert body + [l] == [l] && [l][1..] == [];
    } else {
      assert (body + [l])[0] == body[0] && (body + [l])[1..] == body[1..] + [l];
      PublishAppend(body[1..], l, s);
    }
  }

  lemma {:induction false} PublishedLines(body: seq<Line>, s: RoadmapSync)
    ensures |Publish(body, s)| == |Unstatused(body)|
    ensures forall i :: 0 <= i < |Unstatused(body)| ==> Publish(body, s)[i] == Link(Unstatused(body)[i], s)
  {
    hide Link, Publish;
    if body == [] {
      PublishNothing(s);
    } else {
      var n := |body| - 1;
      PublishedLines(body[..n], s);
      assert body == body[..n] + [body[n]];
      PublishAppend(body[..n], body[n], s);
    }
  }

  lemma PublishNothing(s: RoadmapSync)
    ensures Publish([], s) == []
  {
  }

  /** A merged item under the release: opened with the version, closed as one, and in
      between the item's lines in order, without their status, each mention of the
      unreleased changelog turned into a link to this version and date. */
  lemma ReleasedItemReads(body: seq<Line>, s: RoadmapSync, i: nat)
    requires i < |Unstatused(body)|
    ensures var r := ReleasedItem(body, s);
      && |r| == |Unstatused(body)| + 2
      && r[0] == ReleasedOpen(s.version) && r[|r| - 1] == ReleasedClose
      && Becomes(Unstatused(body)[i], r[i + 1], s)
  {
    hide Publish, Link, Unstatused;
    PublishedLines(body, s);
    LinkBecomes(Unstatused(body)[i], s);
  }

  // ----- tags, and where the release goes -----

  /** After a run a listed release is marked as tagged when its tag exists, and otherwise
      only if the source said so; what the source marked stays marked. */
  lemma TagsAreMarked(source: seq<Line>, s: RoadmapSync, version: string, date: string, tagged: bool)
    requires Synced(source, s).Ok?
    ensures var l := Release(version, date, tagged);
      && (l in Synced(source, s).value && "v" + version in s.tags ==> tagged)
      && (l in Synced(source, s).value && tagged ==> "v" + version in s.tags || l in source)
      && (l in source && tagged ==> l in Synced(source, s).value)
  {
    hide Synced, Find, Listed, MarkTagged;
    SyncedListLines(source, s);
    var l := Release(version, date, tagged);
    assert ListLine(l);
    var at := Find(source, Releases, 0);
    var listed := ListRelease(source, at, s);
    assert Prepare(source, s).value == MarkTagged(listed, s);
    MarkTaggedMembers(listed, s);
    assert source == source[..at + 1] + source[at + 1..];
    if l in MarkTagged(listed, s) {
      var i :| 0 <= i < |listed| && MarkTagged(listed, s)[i] == l;
      assert listed[i] in listed;
      assert listed[i] in source || listed[i] == Release(s.version, s.date, HasTag(s, s.version));
    }
    if l in source && tagged {
      assert l in listed;
      var i :| 0 <= i < |listed| && listed[i] == l;
      assert MarkTagged(listed, s)[i] == l;
    }
  }

  /** A release that was not listed goes right below the line that opens the list. */
  lemma NewReleaseIsFirst(source: seq<Line>, s: RoadmapSync, at: nat)
    requires at < |source| && source[at].ReleasesOpen? && forall j :: 0 <= j < at ==> !source[j].ReleasesOpen?
    requires forall l :: l in source && l.Release? ==> l.version != s.version
    ensures Prepare(source, s).Ok?
    ensures var ls := Prepare(source, s).value;
      && |ls| == |source| + 1 && ls[at].ReleasesOpen?
      && ls[at + 1] == Release(s.version, s.date, "v" + s.version in s.tags)
  {
    hide MarkTagged;
    FirstOf(source, at);
    MarkTaggedMembers(ListRelease(source, at, s), s);
  }

  lemma FirstOf(source: seq<Line>, at: nat)
    requires at < |source| && source[at].ReleasesOpen? && forall j :: 0 <= j < at ==> !source[j].ReleasesOpen?
    ensures Find(source, Releases, 0) == at
  {
    FindIs(source, Releases, 0, at);
  }

  // ----- the note -----

  /** Line i lies between the mark of the merged items and the next released mark, or,
      when none follows, before the last line. */
  ghost predicate InBetween(ls: seq<Line>, mergedAt: nat, i: int) {
    && mergedAt < i < |ls|
    && (forall j :: mergedAt < j <= i ==> !ls[j].ReleasedMark?)
    && (i < |ls| - 1 || exists j :: i < j < |ls| && ls[j].ReleasedMark?)
  }

  lemma BetweenIsSlice(ls: seq<Line>, mergedAt: nat) returns (from: nat, to: nat)
    requires mergedAt < |ls|
    ensures from <= to <= |ls| && Between(ls, mergedAt) == ls[from..to]
    ensures forall i :: InBetween(ls, mergedAt, i) <==> from <= i < to
  {
    from := mergedAt + 1;
    var mark := Find(ls, Sought.Released, from);
    to := Max(from, if mark < |ls| then mark else |ls| - 1);
    forall i ensures InBetween(ls, mergedAt, i) <==> from <= i < to {
      if mark < |ls| { assert ls[mark].ReleasedMark?; }
      if InBetween(ls, mergedAt, i) {
        if mark < |ls| { assert i < mark; }
      }
    }
  }

  lemma BetweenReads(ls: seq<Line>, mergedAt: nat, l: Line)
    requires mergedAt < |ls|
    ensures l in Between(ls, mergedAt) <==> exists i :: InBetween(ls, mergedAt, i) && ls[i] == l
  {
    hide Between, InBetween;
    var from, to := BetweenIsSlice(ls, mergedAt);
    if l in ls[from..to] {
      var k :| 0 <= k < |ls[from..to]| && ls[from..to][k] == l;
      assert InBetween(ls, mergedAt, from + k);
    }
    if i: nat :| i < |ls| && InBetween(ls, mergedAt, i) && ls[i] == l { assert ls[from..to][i - from] == l; }
  }

  ghost predicate CodeBetween(ls: seq<Line>, mergedAt: nat) {
    exists i :: InBetween(ls, mergedAt, i)
      && !ls[i].Blank? && !ls[i].Comment? && !ls[i].NoneNote? && !ls[i].MergedMark? && !ls[i].ReleasedMark?
  }

  /** The note is put below the merged mark exactly when nothing but blank lines and
      comments stands between the marks. */
  lemma NoteIff(ls: seq<Line>, mergedAt: nat, s: RoadmapSync)
    requires mergedAt < |ls|
    ensures AddNote(ls, mergedAt, s) ==
      if CodeBetween(ls, mergedAt) then ls else ls[..mergedAt + 1] + [NoneNote(s.version)] + ls[mergedAt + 1..]
  {
    hide Between;
    if CodeBetween(ls, mergedAt) {
      var i :| InBetween(ls, mergedAt, i) && IsCode(ls[i]);
      BetweenReads(ls, mergedAt, ls[i]);
      assert ls[i] in Between(ls, mergedAt);
    } else {
      forall l | l in Between(ls, mergedAt) ensures !IsCode(l) { BetweenReads(ls, mergedAt, l); }
    }
  }

  // ----- when a run refuses -----

  /** Without a release list or without a roadmap there is nothing to do it to. */
  lemma RefusesWithoutLists(source: seq<Line>, s: RoadmapSync)
    ensures Synced(source, s) == Err(NoReleases) <==> forall l :: l in source ==> !l.ReleasesOpen?
    ensures Synced(source, s) == Err(NoRoadmap) <==>
      (exists l :: l in source && l.ReleasesOpen?) && forall l :: l in source ==> !l.RoadmapOpen?
  {
    hide SyncTail, Stamp, MarkTagged, Listed, Find;
    NotFound(source, Releases);
    if Prepare(source, s).Ok? {
      var ls := Prepare(source, s).value;
      NotFound(ls, Roadmap);
      PreparedOpenings(source, s);
      TailErrors(ls[Find(ls, Roadmap, 0)..], s);
      if Find(ls, Roadmap, 0) < |ls| { TailErrors(ls[Find(ls, Roadmap, 0) + 1..], s); }
    }
  }

  lemma NotFound(ls: seq<Line>, what: Sought)
    ensures Find(ls, what, 0) == |ls| <==> forall l :: l in ls ==> !Is(l, what)
  {
    var r := Find(ls, what, 0);
    if r < |ls| { assert ls[r] in ls; }
  }

  lemma PreparedOpenings(source: seq<Line>, s: RoadmapSync)
    requires Prepare(source, s).Ok?
    ensures (exists l :: l in Prepare(source, s).value && l.RoadmapOpen?) <==> exists l :: l in source && l.RoadmapOpen?
  {
    hide Find, Listed, MarkTagged;
    var at := Find(source, Releases, 0);
    var listed := ListRelease(source, at, s);
    MarkTaggedMembers(listed, s);
    var ls := MarkTagged(listed, s);
    assert source == source[..at + 1] + source[at + 1..];
    if l :| l in ls && l.RoadmapOpen? {
      var i :| 0 <= i < |ls| && ls[i] == l;
      assert listed[i] == l && l in listed && l in source;
    }
    if l :| l in source && l.RoadmapOpen? {
      assert l in listed;
      var i :| 0 <= i < |listed| && listed[i] == l;
      assert ls[i] == l;
    }
  }

  lemma {:induction false} ExtractError(ls: seq<Line>)
    ensures Extract(ls).Err? ==> Extract(ls).error == UnclosedItem
  {
    hide Find;
    if ls != [] {
      ExtractError(ls[1..]);
      if ls[0] == ItemOpen { ExtractError(ls[Close1(ls)..]); }
    }
  }

  function Close1(ls: seq<Line>): (r: nat)
    requires ls != []
    ensures 1 <= r <= |ls|
  {
    var c := Find(ls, Close, 1);
    if c == |ls| then |ls| else c + 1
  }

  lemma TailErrors(tail: seq<Line>, s: RoadmapSync)
    ensures SyncTail(tail, s).Err? ==> SyncTail(tail, s).error == UnclosedItem || SyncTail(tail, s).error == NoReleasedMark
  {
    hide Extract, Find, DropNotes, AddNote;
    ExtractError(tail);
  }

  /** An item that opens before the end of the list and is never closed stops the run, and
      nothing else in the items does. */
  lemma {:induction false} RefusesUnclosedItem(ls: seq<Line>)
    ensures Extract(ls) == Err(UnclosedItem) ==> exists i :: UnclosedAt(ls, i)
    ensures (exists i :: UnclosedAt(ls, i)) && ListEnd !in ls ==> Extract(ls) == Err(UnclosedItem)
    decreases |ls|
  {
    hide Extract, Find, UnclosedAt;
    ExtractStep(ls);
    ExtractError(ls);
    if ls == [] || ls[0] == ListEnd {
      NoneUnclosed(ls);
    } else {
      var close := Find(ls, Close, 1);
      if ls[0] == ItemOpen && close == |ls| {
        UnclosedFirst(ls);
      } else if ls[0] == ItemOpen && StatusMerged in ls[..close + 1] {
        RefusesUnclosedItem(ls[close + 1..]);
        UnclosedShift(ls, close + 1);
      } else {
        RefusesUnclosedItem(ls[1..]);
        UnclosedShift(ls, 1);
      }
    }
  }

  ghost predicate UnclosedAt(ls: seq<Line>, i: int) {
    0 <= i < |ls| && ls[i] == ItemOpen && forall j :: i < j < |ls| ==> !ls[j].ItemClose?
  }

  lemma NoneUnclosed(ls: seq<Line>)
    requires ls == [] || ls[0] == ListEnd
    ensures ListEnd !in ls ==> !(exists i :: UnclosedAt(ls, i))
  {
  }

  lemma UnclosedFirst(ls: seq<Line>)
    requires ls != [] && ls[0] == ItemOpen && Find(ls, Close, 1) == |ls|
    ensures UnclosedAt(ls, 0)
  {
    forall j | 0 < j < |ls| ensures !ls[j].ItemClose? { assert !Is(ls[j], Close); }
  }

  /** Unclosed items after the first n lines are those of the rest, if the first lines
      hold a closing line wherever they open an item. */
  lemma UnclosedShift(ls: seq<Line>, n: nat)
    requires 0 < n <= |ls| && (n == 1 || ls[n - 1].ItemClose?)
    requires n == 1 && ls[0] == ItemOpen ==> Find(ls, Close, 1) < |ls|
    ensures (exists i :: UnclosedAt(ls, i)) <==> exists i :: UnclosedAt(ls[n..], i)
  {
    if n == 1 && ls[0] == ItemOpen { assert Is(ls[Find(ls, Close, 1)], Close); }
    if i :| UnclosedAt(ls, i) {
      assert i >= n;
      assert UnclosedAt(ls[n..], i - n);
    }
    if i :| UnclosedAt(ls[n..], i) {
      forall j | i + n < j < |ls| ensures !ls[j].ItemClose? { assert ls[n..][j - n] == ls[j]; }
      assert UnclosedAt(ls, i + n);
    }
  }
}
