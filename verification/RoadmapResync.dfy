/** On the documented layout, putting a release into the roadmap a second time
    changes nothing. */
module RoadmapResync {
  import opened Roadmap
  import opened RoadmapItems

  // ----- lines that no search looks for -----

  predicate PlainLine(l: Line) { l.Blank? || l.Comment? || l.Code? }

  predicate Quiet(l: Line) { PlainLine(l) || l.ReleasedOpen? || l.ReleasedClose? }

  /** Merged items hold code, comments and blank lines besides their status. */
  predicate PlainItems(items: seq<Item>) {
    forall item :: item in items ==> forall l :: l in item.body ==> PlainLine(l) || l.StatusMerged?
  }

  lemma {:induction false} PublishPlain(body: seq<Line>, s: RoadmapSync)
    requires forall l :: l in body ==> PlainLine(l) || l.StatusMerged?
    ensures forall l :: l in Publish(body, s) ==> PlainLine(l)
  {
    if body != [] {
      assert body[0] in body && forall l :: l in body[1..] ==> l in body;
      PublishPlain(body[1..], s);
    }
  }

  lemma {:induction false} MovedQuiet(items: seq<Item>, s: RoadmapSync)
    requires PlainItems(items)
    ensures forall l :: l in Moved(items, s) ==> Quiet(l)
  {
    if items != [] {
      assert items[0] in items && forall item :: item in items[1..] ==> item in items;
      PublishPlain(items[0].body, s);
      MovedQuiet(items[1..], s);
    }
  }

  lemma {:induction false} RunQuiet(s: State, ls: seq<Line>)
    requires forall l :: l in ls ==> Quiet(l)
    ensures Run(s, ls) == s
    decreases |ls|
  {
    if ls != [] {
      assert Quiet(ls[0]) && forall l :: l in ls[1..] ==> l in ls;
      RunQuiet(s, ls[1..]);
    }
  }

  lemma {:induction false} RunDropNotes(s: State, ls: seq<Line>)
    ensures Run(s, DropNotes(ls)) == Run(s, ls)
    decreases |ls|
  {
    if ls != [] {
      RunDropNotes(Step(s, ls[0]), ls[1..]);
      var rest := DropNotes(ls[1..]);
      if ls[0].NoneNote? {
        assert DropNotes(ls) == rest && Step(s, ls[0]) == s;
      } else {
        assert DropNotes(ls)[0] == ls[0] && DropNotes(ls)[1..] == rest;
      }
    }
  }

  predicate NoNotes(ls: seq<Line>) { forall l :: l in ls ==> !l.NoneNote? }

  lemma {:induction false} DropNotesIdle(ls: seq<Line>)
    requires NoNotes(ls)
    ensures DropNotes(ls) == ls
  {
    if ls != [] {
      assert ls[0] in ls && forall l :: l in ls[1..] ==> l in ls;
      DropNotesIdle(ls[1..]);
      assert [ls[0]] + ls[1..] == ls;
    }
  }

  lemma {:induction false} DropNotesMembers(ls: seq<Line>)
    ensures forall l :: l in DropNotes(ls) <==> l in ls && !l.NoneNote?
  {
    if ls != [] {
      DropNotesMembers(ls[1..]);
      assert ls == [ls[0]] + ls[1..];
    }
  }

  lemma {:induction false} DropNotesAppend(a: seq<Line>, b: seq<Line>)
    ensures DropNotes(a + b) == DropNotes(a) + DropNotes(b)
  {
    if a == [] {
      assert a + b == b;
    } else {
      assert (a + b)[0] == a[0] && (a + b)[1..] == a[1..] + b;
      DropNotesAppend(a[1..], b);
    }
  }

  // ----- positions of the marks -----

  lemma {:induction false} FindIs(ls: seq<Line>, what: Sought, i: nat, r: nat)
    requires i <= r <= |ls| && forall j :: i <= j < r ==> !Is(ls[j], what)
    requires r < |ls| ==> Is(ls[r], what)
    ensures Find(ls, what, i) == r
    decreases r - i
  {
    if i < r { FindIs(ls, what, i + 1, r); }
  }

  /** What comes first in a prefix comes first in the whole. */
  lemma FindInPrefix(ls: seq<Line>, front: seq<Line>, what: Sought)
    requires front <= ls && Find(front, what, 0) < |front|
    ensures Find(ls, what, 0) == Find(front, what, 0)
  {
    var r := Find(front, what, 0);
    assert forall j :: 0 <= j <= r ==> ls[j] == front[j];
    FindIs(ls, what, 0, r);
  }

  lemma FindNone(ls: seq<Line>, what: Sought)
    requires forall l :: l in ls ==> !Is(l, what)
    ensures Find(ls, what, 0) == |ls|
  {
    FindIs(ls, what, 0, |ls|);
  }

  lemma FindAfter(ls: seq<Line>, what: Sought, i: nat)
    requires i <= Find(ls, what, 0)
    ensures Find(ls, what, i) == Find(ls, what, 0)
  {
    FindIs(ls, what, i, Find(ls, what, 0));
  }

  // ----- texts a run leaves alone -----

  lemma StableWithoutMark(base: seq<Line>, s: RoadmapSync)
    requires Settled(base) && NoNotes(base)
    requires Find(base, Merged, 0) == |base| && Find(base, Released, 0) < |base|
    ensures SyncTail(base, s) == Ok(base)
  {
    hide Extract, Find, Settled;
    SettledIsKept(base);
    DropNotesIdle(base);
    var r := Find(base, Released, 0);
    assert base[..r + 1] + [] + base[r + 1..] == base;
  }

  lemma AddNoteDropped(base: seq<Line>, m: nat, s: RoadmapSync)
    requires NoNotes(base) && m < |base|
    ensures DropNotes(AddNote(base, m, s)) == base
    ensures base[..m + 1] <= AddNote(base, m, s)
    ensures forall l :: l in AddNote(base, m, s) ==> l in base || l == NoneNote(s.version)
  {
    hide Between, IsCode, DropNotes;
    DropNotesIdle(base);
    var a, b := base[..m + 1], base[m + 1..];
    assert a + b == base;
    NoteDropped(a, b, NoneNote(s.version));
  }

  lemma NoteDropped(a: seq<Line>, b: seq<Line>, note: Line)
    requires NoNotes(a + b) && note.NoneNote?
    ensures DropNotes(a + [note] + b) == a + b
  {
    hide DropNotes;
    assert forall l :: l in a || l in b ==> l in a + b;
    DropNotesIdle(a);
    DropNotesIdle(b);
    DropNotesAppend(a, [note]);
    DropNotesAppend(a + [note], b);
    LoneNote(note);
    assert a + [] == a;
  }

  lemma LoneNote(note: Line)
    requires note.NoneNote?
    ensures DropNotes([note]) == []
  {
    assert [note][1..] == [];
  }

  lemma AddNoteSettled(base: seq<Line>, m: nat, s: RoadmapSync)
    requires Settled(base) && NoNotes(base) && m < |base|
    ensures Settled(AddNote(base, m, s))
  {
    hide AddNote, Run, DropNotes;
    AddNoteDropped(base, m, s);
    RunDropNotes(Outside, AddNote(base, m, s));
  }

  lemma StableWithMark(base: seq<Line>, s: RoadmapSync)
    requires Settled(base) && NoNotes(base)
    requires Find(base, Merged, 0) < Find(base, Released, 0) < |base|
    ensures var m := Find(base, Merged, 0); SyncTail(AddNote(base, m, s), s) == Ok(AddNote(base, m, s))
  {
    hide Extract, Find, Settled, AddNote, DropNotes, NoNotes;
    var m, r := Find(base, Merged, 0), Find(base, Released, 0);
    var out := AddNote(base, m, s);
    AddNoteSettled(base, m, s);
    AddNoteDropped(base, m, s);
    SettledIsKept(out);
    MarkInPrefix(base, m);
    FindInPrefix(out, base[..m + 1], Merged);
    PrefixShorter(base[..m + 1], out);
    assert base[..r + 1] + [] + base[r + 1..] == base;
  }

  lemma PrefixShorter(front: seq<Line>, ls: seq<Line>)
    requires front <= ls
    ensures |front| <= |ls|
  {
  }

  lemma MarkInPrefix(base: seq<Line>, m: nat)
    requires m < |base| && m == Find(base, Merged, 0)
    ensures Find(base[..m + 1], Merged, 0) == m
  {
    FindIs(base[..m + 1], Merged, 0, m);
  }

  // ----- what the first run writes -----

  /** The merged mark, if any, comes before the released mark, and no "none" note
      comes before it. */
  predicate MarksInOrder(kept: seq<Line>) {
    var m := Find(kept, Merged, 0);
    m < |kept| ==> m < Find(kept, Released, 0) && NoNotes(kept[..m + 1])
  }

  predicate WellPlaced(tail: seq<Line>) {
    && Extract(tail).Ok?
    && PlainItems(Extract(tail).value.items)
    && MarksInOrder(Extract(tail).value.kept)
  }

  /** The kept lines without notes, and the moved items after the released mark. */
  function Base(e: Extracted, s: RoadmapSync): seq<Line> {
    var k := DropNotes(e.kept);
    var at := Find(k, Released, 0);
    if at == |k| then k else k[..at + 1] + Moved(e.items, s) + k[at + 1..]
  }

  lemma BaseSettled(e: Extracted, s: RoadmapSync)
    requires Settled(e.kept) && PlainItems(e.items)
    ensures Settled(Base(e, s)) && NoNotes(Base(e, s))
  {
    hide Find, Run, DropNotes, Moved, PlainItems;
    var k, moved := DropNotes(e.kept), Moved(e.items, s);
    var at := Find(k, Released, 0);
    RunDropNotes(Outside, e.kept);
    DropNotesMembers(e.kept);
    if at < |k| {
      MovedQuiet(e.items, s);
      var a, b := k[..at + 1], k[at + 1..];
      assert a + b == k && forall l :: l in a + b ==> l in k;
      RunAppend(Outside, a, b);
      RunAppend(Outside, a, moved);
      RunAppend(Outside, a + moved, b);
      RunQuiet(Run(Outside, a), moved);
    }
  }

  lemma BaseReleased(e: Extracted, s: RoadmapSync)
    requires var k := DropNotes(e.kept); Find(k, Released, 0) < |k|
    ensures var base, r := Base(e, s), Find(DropNotes(e.kept), Released, 0);
      Find(base, Released, 0) == r < |base| && DropNotes(e.kept)[..r + 1] <= base
  {
    hide Moved, DropNotes;
    var k := DropNotes(e.kept);
    var r := Find(k, Released, 0);
    FindIs(k[..r + 1], Released, 0, r);
    FindInPrefix(Base(e, s), k[..r + 1], Released);
  }

  lemma BaseUnmerged(e: Extracted, s: RoadmapSync)
    requires PlainItems(e.items) && Find(e.kept, Merged, 0) == |e.kept|
    ensures Find(Base(e, s), Merged, 0) == |Base(e, s)|
  {
    hide Moved, PlainItems, DropNotes;
    var k, moved, base := DropNotes(e.kept), Moved(e.items, s), Base(e, s);
    MovedQuiet(e.items, s);
    DropNotesMembers(e.kept);
    forall l | l in base ensures !Is(l, Merged) {
      if l !in moved { assert l in k && l in e.kept; }
    }
    FindNone(base, Merged);
  }

  lemma BaseMerged(kept: seq<Line>, base: seq<Line>, r: nat)
    requires MarksInOrder(kept) && Find(kept, Merged, 0) < |kept|
    requires r == Find(DropNotes(kept), Released, 0) < |DropNotes(kept)| && DropNotes(kept)[..r + 1] <= base
    ensures Find(base, Merged, 0) == Find(kept, Merged, 0) < r
  {
    hide DropNotes;
    var k, m := DropNotes(kept), Find(kept, Merged, 0);
    KeptMark(kept);
    assert k[..m + 1] == k[..r + 1][..m + 1] <= base;
    MarkInPrefix(kept, m);
    FindInPrefix(base, k[..m + 1], Merged);
  }

  /** Dropping notes and adding moved items keeps the marks in place. */
  lemma BaseMarks(e: Extracted, s: RoadmapSync)
    requires PlainItems(e.items) && MarksInOrder(e.kept)
    requires var k := DropNotes(e.kept); Find(k, Released, 0) < |k|
    ensures var base, m, r := Base(e, s), Find(e.kept, Merged, 0), Find(DropNotes(e.kept), Released, 0);
      && Find(base, Released, 0) == r < |base|
      && (m == |e.kept| ==> Find(base, Merged, 0) == |base|)
      && (m < |e.kept| ==> Find(base, Merged, 0) == m < r)
  {
    hide DropNotes, PlainItems, MarksInOrder, Base, Find;
    BaseReleased(e, s);
    if Find(e.kept, Merged, 0) == |e.kept| {
      BaseUnmerged(e, s);
    } else {
      BaseMerged(e.kept, Base(e, s), Find(DropNotes(e.kept), Released, 0));
    }
  }

  lemma KeptMark(kept: seq<Line>)
    requires MarksInOrder(kept) && Find(kept, Merged, 0) < |kept|
    ensures var m, k := Find(kept, Merged, 0), DropNotes(kept);
      && m < |k| && k[..m + 1] == kept[..m + 1] && m < Find(k, Released, 0)
  {
    hide DropNotes;
    var m, k := Find(kept, Merged, 0), DropNotes(kept);
    var a, b := kept[..m + 1], kept[m + 1..];
    assert kept == a + b;
    DropNotesAppend(a, b);
    DropNotesIdle(a);
    assert k[..m + 1] == a;
    forall j | 0 <= j <= m ensures !Is(k[j], Released) {
      assert k[j] == a[j] == kept[j];
    }
  }

  /** The tail of the file is rewritten once and for all. */
  lemma TailTwice(tail: seq<Line>, s: RoadmapSync)
    requires WellPlaced(tail) && SyncTail(tail, s).Ok?
    ensures SyncTail(SyncTail(tail, s).value, s) == SyncTail(tail, s)
  {
    hide Extract, Find, Settled, AddNote, DropNotes, NoNotes, Moved, PlainItems;
    var e := Extract(tail).value;
    ExtractSettles(tail);
    BaseSettled(e, s);
    BaseMarks(e, s);
    if Find(e.kept, Merged, 0) == |e.kept| {
      StableWithoutMark(Base(e, s), s);
    } else {
      StableWithMark(Base(e, s), s);
    }
  }
}
