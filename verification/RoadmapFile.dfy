/** The whole roadmap file: its release list, its record of the reconciliation,
    and the documented layout, on which the line splicing is a transformation of
    items. */
module RoadmapFile {
  import opened Roadmap
  import opened RoadmapItems
  import opened RoadmapResync

  // ----- the release list -----

  predicate Tagged(ls: seq<Line>, s: RoadmapSync) {
    forall l :: l in ls && l.Release? && HasTag(s, l.version) ==> l.tagged
  }

  lemma {:induction false} MarkTaggedMembers(ls: seq<Line>, s: RoadmapSync)
    ensures |MarkTagged(ls, s)| == |ls|
    ensures forall i :: 0 <= i < |ls| ==> MarkTagged(ls, s)[i] == Tag(ls[i], s)
  {
    if ls != [] { MarkTaggedMembers(ls[1..], s); }
  }

  lemma {:induction false} MarkTaggedIdle(ls: seq<Line>, s: RoadmapSync)
    requires Tagged(ls, s)
    ensures MarkTagged(ls, s) == ls
  {
    if ls != [] {
      assert ls[0] in ls && forall l :: l in ls[1..] ==> l in ls;
      MarkTaggedIdle(ls[1..], s);
      assert [ls[0]] + ls[1..] == ls;
    }
  }

  lemma PrepareLists(source: seq<Line>, s: RoadmapSync)
    requires Prepare(source, s).Ok?
    ensures var ls := Prepare(source, s).value; Listed(ls, s.version) && Tagged(ls, s) && exists l :: l in ls && l.ReleasesOpen?
  {
    hide Find, HasTag;
    var at := Find(source, Releases, 0);
    var listed := ListRelease(source, at, s);
    MarkTaggedMembers(listed, s);
    var ls := MarkTagged(listed, s);
    ListedAfter(source, at, s);
    var i :| 0 <= i < |listed| && listed[i].Release? && listed[i].version == s.version;
    assert ls[i] in ls && ls[i].Release? && ls[i].version == s.version;
    var j :| 0 <= j < |listed| && listed[j].ReleasesOpen?;
    assert ls[j] in ls;
    forall l | l in ls && l.Release? && HasTag(s, l.version) ensures l.tagged {
      var k :| 0 <= k < |ls| && ls[k] == l;
      assert l == Tag(listed[k], s);
    }
  }

  lemma ListedAfter(source: seq<Line>, at: nat, s: RoadmapSync)
    requires at < |source| && source[at].ReleasesOpen?
    ensures var ls := ListRelease(source, at, s);
      && (exists i :: 0 <= i < |ls| && ls[i].Release? && ls[i].version == s.version)
      && (exists j :: 0 <= j < |ls| && ls[j].ReleasesOpen?)
  {
    hide HasTag;
    var ls := ListRelease(source, at, s);
    if Listed(source, s.version) {
      var l :| l in source && l.Release? && l.version == s.version;
      var i :| 0 <= i < |source| && source[i] == l;
      assert ls[i].Release?;
    } else {
      assert ls[at + 1].Release? && ls[at + 1].version == s.version;
    }
    assert ls[at].ReleasesOpen?;
  }

  /** With the list in order, preparing does nothing. */
  lemma PrepareIdle(ls: seq<Line>, s: RoadmapSync)
    requires Listed(ls, s.version) && Tagged(ls, s) && exists l :: l in ls && l.ReleasesOpen?
    ensures Prepare(ls, s) == Ok(ls)
  {
    hide Find, HasTag, Listed;
    MarkTaggedIdle(ls, s);
    var l :| l in ls && l.ReleasesOpen?;
    var i :| 0 <= i < |ls| && ls[i] == l;
    assert Is(ls[i], Releases);
  }

  // ----- release lines survive the rewriting of the tail -----

  predicate ListLine(l: Line) { l.Release? || l.ReleasesOpen? }

  function Bodies(items: seq<Item>): seq<seq<Line>> {
    if items == [] then [] else [items[0].body] + Bodies(items[1..])
  }

  function Flat(bodies: seq<seq<Line>>): seq<Line> {
    if bodies == [] then [] else bodies[0] + Flat(bodies[1..])
  }

  lemma KeepFirstParts(l: Line, r: Result<Extracted>)
    requires r.Ok?
    ensures KeepFirst(l, r).Ok? && KeepFirst(l, r).value.kept == [l] + r.value.kept
    ensures Bodies(KeepFirst(l, r).value.items) == Bodies(r.value.items)
  {
    var items, was := KeepFirst(l, r).value.items, r.value.items;
    if was != [] { assert items[1..] == was[1..]; }
  }

  lemma TakeItemParts(body: seq<Line>, r: Result<Extracted>)
    requires r.Ok?
    ensures TakeItem(body, r).Ok? && TakeItem(body, r).value.kept == r.value.kept
    ensures Bodies(TakeItem(body, r).value.items) == [body] + Bodies(r.value.items)
  {
    assert TakeItem(body, r).value.items[1..] == r.value.items;
  }

  lemma {:induction false} ExtractListLines(ls: seq<Line>, l: Line)
    requires Extract(ls).Ok? && ListLine(l)
    ensures var e := Extract(ls).value; l in ls <==> l in e.kept || l in Flat(Bodies(e.items))
    decreases |ls|
  {
    hide Extract, KeepFirst, TakeItem, Find, Bodies;
    ExtractStep(ls);
    if ls == [] || ls[0] == ListEnd {
      NoBodies();
    } else {
      var close := if ls[0] == ItemOpen then Find(ls, Close, 1) else 0;
      if ls[0] == ItemOpen && StatusMerged in ls[..close + 1] {
        var rest := ls[close + 1..];
        OkUnder(ls[1..close], Extract(rest));
        ExtractListLines(rest, l);
        TakeItemParts(ls[1..close], Extract(rest));
        assert ls == [ls[0]] + ls[1..close] + [ls[close]] + rest;
        assert Flat([ls[1..close]] + Bodies(Extract(rest).value.items))
            == ls[1..close] + Flat(Bodies(Extract(rest).value.items));
      } else {
        KeptHead(ls[0], Extract(ls[1..]));
        ExtractListLines(ls[1..], l);
        KeepFirstParts(ls[0], Extract(ls[1..]));
        assert ls == [ls[0]] + ls[1..];
      }
    }
  }

  lemma OkUnder(body: seq<Line>, r: Result<Extracted>)
    requires TakeItem(body, r).Ok?
    ensures r.Ok?
  {
  }

  lemma NoBodies()
    ensures Bodies([]) == []
  {
  }

  lemma {:induction false} PublishListLines(body: seq<Line>, s: RoadmapSync, l: Line)
    requires ListLine(l)
    ensures l in Publish(body, s) <==> l in body
  {
    if body != [] {
      PublishListLines(body[1..], s, l);
      assert body == [body[0]] + body[1..];
    }
  }

  lemma {:induction false} MovedListLines(items: seq<Item>, s: RoadmapSync, l: Line)
    requires ListLine(l)
    ensures l in Moved(items, s) <==> l in Flat(Bodies(items))
  {
    if items != [] {
      PublishListLines(items[0].body, s, l);
      MovedListLines(items[1..], s, l);
      assert Bodies(items)[1..] == Bodies(items[1..]);
    }
  }

  lemma TailListLines(tail: seq<Line>, s: RoadmapSync, l: Line)
    requires SyncTail(tail, s).Ok? && ListLine(l)
    ensures l in SyncTail(tail, s).value <==> l in tail
  {
    hide Extract, Find, Moved, Bodies, Flat, DropNotes, Between, IsCode;
    var e := Extract(tail).value;
    ExtractListLines(tail, l);
    DropNotesMembers(e.kept);
    MovedListLines(e.items, s, l);
    var k := DropNotes(e.kept);
    var at := Find(k, Released, 0);
    assert k == k[..at + 1] + k[at + 1..];
    var base := Base(e, s);
    assert l in base <==> l in tail;
    var m := Find(e.kept, Merged, 0);
    if m < |e.kept| { NoteListLines(base, m, s, l); }
  }

  lemma NoteListLines(base: seq<Line>, m: nat, s: RoadmapSync, l: Line)
    requires ListLine(l)
    ensures l in AddNote(base, m, s) <==> l in base
  {
    hide Between, IsCode;
    var at := Min(m + 1, |base|);
    assert base == base[..at] + base[at..];
  }

  // ----- the reconciliation record -----

  lemma {:induction false} StampDateTwice(ls: seq<Line>, date: string)
    ensures StampDate(StampDate(ls, date), date) == StampDate(ls, date)
    ensures |StampDate(ls, date)| == |ls|
  {
    if |ls| >= 2 && !(ls[0].ReconciledOpen? && ls[1].Date?) {
      StampDateTwice(ls[1..], date);
      var t := StampDate(ls[1..], date);
      assert StampDate(ls, date) == [ls[0]] + t && ([ls[0]] + t)[1..] == t;
      StampDateHead(ls[1..], date);
    } else if |ls| >= 2 {
      assert ([ls[0], Date(date)] + ls[2..])[2..] == ls[2..];
    }
  }

  /** Stamping a date leaves the first line alone. */
  lemma StampDateHead(ls: seq<Line>, date: string)
    ensures ls != [] ==> StampDate(ls, date) != [] && StampDate(ls, date)[0] == ls[0]
  {
  }

  lemma {:induction false} StampRevisionTwice(ls: seq<Line>, revision: string)
    ensures StampRevision(StampRevision(ls, revision), revision) == StampRevision(ls, revision)
    ensures |StampRevision(ls, revision)| == |ls|
    ensures ls != [] ==> StampRevision(ls, revision) != [] && StampRevision(ls, revision)[0] == ls[0]
    ensures |ls| >= 2 ==> StampRevision(ls, revision)[1].Revision? == ls[1].Revision?
  {
    if |ls| >= 2 && !ls[1].Revision? {
      StampRevisionTwice(ls[1..], revision);
      var t := StampRevision(ls[1..], revision);
      assert StampRevision(ls, revision) == [ls[0]] + t && ([ls[0]] + t)[1..] == t;
      assert ([ls[0]] + t)[1] == t[0] == ls[1];
    } else if |ls| >= 2 {
      assert ([ls[0], Revision(revision)] + ls[2..])[2..] == ls[2..];
    }
  }

  /** The two stamps do not get in each other's way. */
  lemma {:induction false} StampsCommute(ls: seq<Line>, date: string, revision: string)
    requires StampDate(ls, date) == ls
    ensures StampDate(StampRevision(ls, revision), date) == StampRevision(ls, revision)
  {
    if |ls| >= 2 {
      var r := StampRevision(ls, revision);
      if ls[1].Revision? {
        assert StampDate(ls, date)[1..] == StampDate(ls[1..], date) == ls[1..];
        StampDateOtherHead(ls[1..], Revision(revision), date);
        assert r == [ls[0]] + ([Revision(revision)] + ls[1..][1..]);
        assert r[1..] == [Revision(revision)] + ls[1..][1..];
      } else {
        StampRevisionTwice(ls[1..], revision);
        assert r[1..] == StampRevision(ls[1..], revision) && r[1] == ls[1];
        if ls[0].ReconciledOpen? && ls[1].Date? {
          assert ls[1] == Date(date) by { assert StampDate(ls, date)[1] == Date(date); }
          assert r == [ls[0], Date(date)] + r[2..];
        } else {
          assert StampDate(ls, date)[1..] == StampDate(ls[1..], date) == ls[1..];
          StampsCommute(ls[1..], date, revision);
          assert [r[0]] + r[1..] == r;
        }
      }
    }
  }

  lemma StampDateOtherHead(ls: seq<Line>, head: Line, date: string)
    requires ls != [] && !ls[0].ReconciledOpen? && !head.ReconciledOpen? && StampDate(ls, date) == ls
    ensures StampDate([head] + ls[1..], date) == [head] + ls[1..]
  {
    var t := [head] + ls[1..];
    if |ls| >= 2 {
      assert StampDate(ls, date)[1..] == StampDate(ls[1..], date) == ls[1..];
      assert t[1..] == ls[1..];
    }
  }

  lemma StampTwice(ls: seq<Line>, s: RoadmapSync)
    ensures Stamp(Stamp(ls, s), s) == Stamp(ls, s)
    ensures |Stamp(ls, s)| == |ls|
  {
    hide StampDate, StampRevision;
    var d := StampDate(ls, s.date);
    StampDateTwice(ls, s.date);
    StampRevisionTwice(d, s.revision);
    StampsCommute(d, s.date, s.revision);
  }

  /** No line that a stamp would rewrite or look behind. */
  predicate NoRecord(ls: seq<Line>) { forall l :: l in ls ==> !l.ReconciledOpen? && !l.Revision? }

  lemma {:induction false} StampFront(front: seq<Line>, tail: seq<Line>, s: RoadmapSync)
    requires front != [] && !front[|front| - 1].ReconciledOpen? && NoRecord(tail)
    ensures StampDate(front + tail, s.date) == StampDate(front, s.date) + tail
  {
    var ls := front + tail;
    if |front| == 1 {
      assert ls == [front[0]] + tail && ls[1..] == tail;
      NoDateStamp(tail, s.date);
    } else {
      assert ls[0] == front[0] && ls[1] == front[1] && ls[1..] == front[1..] + tail;
      if front[0].ReconciledOpen? && front[1].Date? {
        assert ls[2..] == front[2..] + tail;
      } else {
        StampFront(front[1..], tail, s);
      }
    }
  }

  lemma {:induction false} NoDateStamp(ls: seq<Line>, date: string)
    requires NoRecord(ls)
    ensures StampDate(ls, date) == ls
  {
    if |ls| >= 2 {
      assert ls[0] in ls && forall l :: l in ls[1..] ==> l in ls;
      NoDateStamp(ls[1..], date);
    }
  }

  lemma {:induction false} StampRevisionFront(front: seq<Line>, tail: seq<Line>, s: RoadmapSync)
    requires front != [] && NoRecord(tail)
    ensures StampRevision(front + tail, s.revision) == StampRevision(front, s.revision) + tail
  {
    var ls := front + tail;
    if |front| == 1 {
      assert ls == [front[0]] + tail && ls[1..] == tail;
      if tail != [] { assert tail[0] in tail; }
      NoRevisionStamp(tail, s.revision);
    } else {
      assert ls[0] == front[0] && ls[1] == front[1] && ls[1..] == front[1..] + tail;
      if front[1].Revision? {
        assert ls[2..] == front[2..] + tail;
      } else {
        StampRevisionFront(front[1..], tail, s);
      }
    }
  }

  lemma {:induction false} NoRevisionStamp(ls: seq<Line>, revision: string)
    requires NoRecord(ls)
    ensures StampRevision(ls, revision) == ls
  {
    if |ls| >= 2 {
      assert ls[1] in ls && forall l :: l in ls[1..] ==> l in ls;
      NoRevisionStamp(ls[1..], revision);
    }
  }

  /** Stamping rewrites dates and revisions and nothing else. */
  predicate SameBut(a: Line, b: Line) { a == b || (a.Date? && b.Date?) || (a.Revision? && b.Revision?) }

  lemma {:induction false} StampDateLines(ls: seq<Line>, date: string)
    ensures |StampDate(ls, date)| == |ls|
    ensures forall i :: 0 <= i < |ls| ==> SameBut(ls[i], StampDate(ls, date)[i])
  {
    if |ls| >= 2 && !(ls[0].ReconciledOpen? && ls[1].Date?) { StampDateLines(ls[1..], date); }
  }

  lemma {:induction false} StampRevisionLines(ls: seq<Line>, revision: string)
    ensures |StampRevision(ls, revision)| == |ls|
    ensures forall i :: 0 <= i < |ls| ==> SameBut(ls[i], StampRevision(ls, revision)[i])
  {
    if |ls| >= 2 && !ls[1].Revision? { StampRevisionLines(ls[1..], revision); }
  }

  lemma StampLines(ls: seq<Line>, s: RoadmapSync)
    ensures |Stamp(ls, s)| == |ls|
    ensures forall i :: 0 <= i < |ls| ==> SameBut(ls[i], Stamp(ls, s)[i])
  {
    hide StampDate, StampRevision;
    StampDateLines(ls, s.date);
    StampRevisionLines(StampDate(ls, s.date), s.revision);
    var d := StampDate(ls, s.date);
    forall i | 0 <= i < |ls| ensures SameBut(ls[i], Stamp(ls, s)[i]) {
      assert SameBut(ls[i], d[i]) && SameBut(d[i], Stamp(ls, s)[i]);
    }
  }

  lemma StampListLines(ls: seq<Line>, s: RoadmapSync, l: Line)
    requires ListLine(l)
    ensures l in Stamp(ls, s) <==> l in ls
  {
    hide Stamp;
    StampLines(ls, s);
    if l in ls {
      var i :| 0 <= i < |ls| && ls[i] == l;
      assert SameBut(ls[i], Stamp(ls, s)[i]);
    }
    if l in Stamp(ls, s) {
      var i :| 0 <= i < |ls| && Stamp(ls, s)[i] == l;
      assert SameBut(ls[i], Stamp(ls, s)[i]);
    }
  }

  // ----- the file as a whole -----

  /** The lines after the opening of the roadmap, once the release is listed. */
  function TailOf(source: seq<Line>, s: RoadmapSync): seq<Line>
    requires Prepare(source, s).Ok?
  {
    var lines := Prepare(source, s).value;
    var at := Find(lines, Roadmap, 0);
    if at == |lines| then [] else lines[at + 1..]
  }

  function FrontOf(source: seq<Line>, s: RoadmapSync): seq<Line>
    requires Prepare(source, s).Ok?
  {
    var lines := Prepare(source, s).value;
    var at := Find(lines, Roadmap, 0);
    if at == |lines| then lines else lines[..at + 1]
  }

  lemma SyncedParts(source: seq<Line>, s: RoadmapSync)
    requires Synced(source, s).Ok?
    ensures Prepare(source, s).Ok? && SyncTail(TailOf(source, s), s).Ok?
    ensures var front, t := FrontOf(source, s), SyncTail(TailOf(source, s), s).value;
      && front != [] && Find(front, Roadmap, 0) == |front| - 1
      && Synced(source, s).value == Stamp(front + t, s)
      && Prepare(source, s).value == front + TailOf(source, s)
  {
    hide Prepare, SyncTail, Stamp, Find;
    var lines := Prepare(source, s).value;
    var at := Find(lines, Roadmap, 0);
    FindIs(lines[..at + 1], Roadmap, 0, at);
    assert lines == lines[..at + 1] + lines[at + 1..];
  }

  ghost predicate HasRelease(ls: seq<Line>, version: string, date: string) {
    exists l :: l in ls && l.Release? && l.version == version && l.date == date
  }

  /** A release of the source, or the new one when the source does not list it. */
  ghost predicate IsRelease(source: seq<Line>, s: RoadmapSync, version: string, date: string) {
    HasRelease(source, version, date) || (!Listed(source, s.version) && version == s.version && date == s.date)
  }

  /** Preparing adds the release, if it was not listed, and changes no other
      release's version or date. */
  lemma PrepareReleases(source: seq<Line>, s: RoadmapSync, version: string, date: string)
    requires Prepare(source, s).Ok?
    ensures HasRelease(Prepare(source, s).value, version, date)
        <==> IsRelease(source, s, version, date)
  {
    hide Find, HasTag, Listed;
    var at := Find(source, Releases, 0);
    var listed := ListRelease(source, at, s);
    MarkTaggedMembers(listed, s);
    var ls := MarkTagged(listed, s);
    ListedReleases(source, at, s, version, date);
    if HasRelease(listed, version, date) {
      var l :| l in listed && l.Release? && l.version == version && l.date == date;
      var i :| 0 <= i < |listed| && listed[i] == l;
      assert ls[i] == Tag(l, s) && ls[i] in ls;
    }
    if HasRelease(ls, version, date) {
      var l :| l in ls && l.Release? && l.version == version && l.date == date;
      var i :| 0 <= i < |ls| && ls[i] == l;
      assert l == Tag(listed[i], s) && listed[i] in listed;
    }
  }

  lemma ListedReleases(source: seq<Line>, at: nat, s: RoadmapSync, version: string, date: string)
    requires at < |source|
    ensures HasRelease(ListRelease(source, at, s), version, date)
        <==> IsRelease(source, s, version, date)
  {
    hide HasTag, Listed;
    var added := Release(s.version, s.date, HasTag(s, s.version));
    assert source == source[..at + 1] + source[at + 1..];
    assert !Listed(source, s.version) ==> added in ListRelease(source, at, s);
    assert forall l :: l in source ==> l in ListRelease(source, at, s);
    assert forall l :: l in ListRelease(source, at, s) ==> l in source || (l == added && !Listed(source, s.version));
  }

  lemma SyncedListLines(source: seq<Line>, s: RoadmapSync)
    requires Synced(source, s).Ok?
    ensures Prepare(source, s).Ok? && forall l :: ListLine(l) ==>
      (l in Synced(source, s).value <==> l in Prepare(source, s).value)
  {
    hide Prepare, SyncTail, Stamp, Find, HasTag, FrontOf, TailOf, Synced;
    SyncedParts(source, s);
    var front, tail, lines := FrontOf(source, s), TailOf(source, s), Prepare(source, s).value;
    var t, out := SyncTail(tail, s).value, Synced(source, s).value;
    forall l | ListLine(l) ensures l in out <==> l in lines {
      StampListLines(front + t, s, l);
      TailListLines(tail, s, l);
    }
  }

  /** Whatever the layout: after a run the release is listed, every listed release
      whose tag exists is marked as tagged, and the releases listed are those of
      the source, with their dates, and the new one if it was missing. */
  lemma ReleaseIsListed(source: seq<Line>, s: RoadmapSync)
    requires Synced(source, s).Ok?
    ensures Listed(Synced(source, s).value, s.version) && Tagged(Synced(source, s).value, s)
    ensures forall version, date ::
      HasRelease(Synced(source, s).value, version, date) <==> IsRelease(source, s, version, date)
  {
    hide Prepare, HasTag, Synced;
    SyncedListLines(source, s);
    var lines, out := Prepare(source, s).value, Synced(source, s).value;
    PrepareLists(source, s);
    var l :| l in lines && l.Release? && l.version == s.version;
    assert ListLine(l) && l in out;
    forall x | x in out && x.Release? && HasTag(s, x.version) ensures x.tagged {
      assert ListLine(x) && x in lines;
    }
    forall version, date ensures HasRelease(out, version, date)
      == IsRelease(source, s, version, date)
    {
      PrepareReleases(source, s, version, date);
      SameReleases(out, lines, version, date);
    }
  }

  lemma SameReleases(ls: seq<Line>, ms: seq<Line>, version: string, date: string)
    requires forall l :: ListLine(l) ==> (l in ls <==> l in ms)
    ensures HasRelease(ls, version, date) == HasRelease(ms, version, date)
  {
    if HasRelease(ls, version, date) {
      var l :| l in ls && l.Release? && l.version == version && l.date == date;
      assert ListLine(l) && l in ms;
    }
    if HasRelease(ms, version, date) {
      var l :| l in ms && l.Release? && l.version == version && l.date == date;
      assert ListLine(l) && l in ls;
    }
  }

  /** The record that a stamp looks for stands before the roadmap. */
  lemma StampBefore(front: seq<Line>, tail: seq<Line>, s: RoadmapSync)
    requires front != [] && front[|front| - 1].RoadmapOpen? && NoRecord(tail)
    ensures Stamp(front + tail, s) == Stamp(front, s) + tail
  {
    hide StampDate, StampRevision;
    StampFront(front, tail, s);
    StampDateLines(front, s.date);
    StampRevisionFront(StampDate(front, s.date), tail, s);
  }

  lemma StampKeepsOpening(front: seq<Line>, s: RoadmapSync)
    requires front != [] && Find(front, Roadmap, 0) == |front| - 1
    ensures var f := Stamp(front, s); |f| == |front| && f[|f| - 1].RoadmapOpen? && Find(f, Roadmap, 0) == |f| - 1
  {
    hide Stamp;
    StampLines(front, s);
    var f := Stamp(front, s);
    forall j | 0 <= j < |front| ensures Is(f[j], Roadmap) == Is(front[j], Roadmap) {
      assert SameBut(front[j], f[j]);
    }
    FindIs(f, Roadmap, 0, |f| - 1);
  }

  /** A prepared file whose tail is settled stays as it is. */
  lemma SyncedIdle(front: seq<Line>, t: seq<Line>, s: RoadmapSync)
    requires front != [] && Find(front, Roadmap, 0) == |front| - 1
    requires Prepare(front + t, s) == Ok(front + t) && SyncTail(t, s) == Ok(t) && Stamp(front + t, s) == front + t
    ensures Synced(front + t, s) == Ok(front + t)
  {
    hide Prepare, SyncTail, Stamp, Find;
    FindInPrefix(front + t, front, Roadmap);
    assert (front + t)[..|front|] == front && (front + t)[|front|..] == t;
  }

  /** Running twice equals running once, when the marks are in order, merged items
      hold plain lines, and the record stands before the roadmap. */
  lemma FileTwice(source: seq<Line>, s: RoadmapSync)
    requires Synced(source, s).Ok?
    requires Prepare(source, s).Ok? && WellPlaced(TailOf(source, s))
    requires NoRecord(TailOf(source, s))
    ensures Synced(Synced(source, s).value, s) == Synced(source, s)
  {
    hide Prepare, SyncTail, Stamp, Find, HasTag, FrontOf, TailOf, Synced, WellPlaced, NoRecord, Listed, Tagged;
    SyncedParts(source, s);
    var front, tail, lines := FrontOf(source, s), TailOf(source, s), Prepare(source, s).value;
    var t, out := SyncTail(tail, s).value, Synced(source, s).value;
    TailKeepsNoRecord(tail, s);
    var f := Stamp(front, s);
    StampBefore(front, t, s);
    assert out == f + t;
    StampKeepsOpening(front, s);
    StampTwice(front, s);
    StampBefore(f, t, s);
    ReleaseIsListed(source, s);
    SyncedListLines(source, s);
    PrepareLists(source, s);
    var l :| l in lines && l.ReleasesOpen?;
    assert ListLine(l) && l in out;
    PrepareIdle(out, s);
    TailTwice(tail, s);
    SyncedIdle(f, t, s);
  }

  lemma TailKeepsNoRecord(tail: seq<Line>, s: RoadmapSync)
    requires WellPlaced(tail) && SyncTail(tail, s).Ok? && NoRecord(tail)
    ensures NoRecord(SyncTail(tail, s).value)
  {
    hide Extract, Find, Moved, DropNotes, Between, IsCode, PlainItems, MarksInOrder;
    var e := Extract(tail).value;
    MovedQuiet(e.items, s);
    KeptFromTail(tail);
    DropNotesMembers(e.kept);
    var k, base := DropNotes(e.kept), Base(e, s);
    var at := Find(k, Released, 0);
    assert k == k[..at + 1] + k[at + 1..];
    assert forall l :: l in base ==> l in k || Quiet(l);
    assert NoRecord(base);
    var m := Find(e.kept, Merged, 0);
    if m < |e.kept| { AddNoteMembers(base, m, s); }
  }

  lemma AddNoteMembers(base: seq<Line>, m: nat, s: RoadmapSync)
    ensures forall l :: l in AddNote(base, m, s) ==> l in base || l == NoneNote(s.version)
  {
    hide Between, IsCode;
  }

  lemma {:induction false} KeptFromTail(ls: seq<Line>)
    requires Extract(ls).Ok?
    ensures forall l :: l in Extract(ls).value.kept ==> l in ls
    decreases |ls|
  {
    hide Extract, KeepFirst, TakeItem, Find;
    ExtractStep(ls);
    if ls == [] || ls[0] == ListEnd {
    } else {
      var close := if ls[0] == ItemOpen then Find(ls, Close, 1) else 0;
      if ls[0] == ItemOpen && StatusMerged in ls[..close + 1] {
        var rest := ls[close + 1..];
        OkUnder(ls[1..close], Extract(rest));
        KeptFromTail(rest);
        TakeItemParts(ls[1..close], Extract(rest));
        assert ls == ls[..close + 1] + rest;
      } else {
        KeptHead(ls[0], Extract(ls[1..]));
        KeptFromTail(ls[1..]);
        assert ls == [ls[0]] + ls[1..];
      }
    }
  }
}
