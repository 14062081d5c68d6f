/** The documented layout: single lines and whole items between the two marks.
    On it, splicing lines is moving items. */
module RoadmapLayout {
  import opened Roadmap
  import opened RoadmapItems
  import opened RoadmapResync
  import opened RoadmapFile

  /** A piece of the list: one line, or an item from `{` to `},`. */
  datatype Chunk = Single(line: Line) | ItemBlock(body: seq<Line>)

  function LinesIn(c: Chunk): seq<Line> {
    match c
    case Single(line) => [line]
    case ItemBlock(body) => Block(body)
  }

  function Lines(cs: seq<Chunk>): seq<Line> {
    if cs == [] then [] else LinesIn(cs[0]) + Lines(cs[1..])
  }

  predicate MergedItem(c: Chunk) { c.ItemBlock? && StatusMerged in c.body }

  /** The chunks that are not merged items. */
  function Staying(cs: seq<Chunk>): seq<Chunk> {
    if cs == [] then [] else (if MergedItem(cs[0]) then [] else [cs[0]]) + Staying(cs[1..])
  }

  function MergedBodies(cs: seq<Chunk>): seq<seq<Line>> {
    if cs == [] then [] else (if MergedItem(cs[0]) then [cs[0].body] else []) + MergedBodies(cs[1..])
  }

  /** Items hold code, comments, blank lines and their status; other lines are
      neither braces of items nor marks nor the end of the list. */
  predicate GoodChunk(c: Chunk) {
    match c
    case Single(l) => PlainLine(l) || l.NoneNote? || l.ReleasedOpen? || l.ReleasedClose?
    case ItemBlock(body) => forall l :: l in body ==> PlainLine(l) || l.StatusMerged?
  }

  predicate GoodChunks(cs: seq<Chunk>) { forall c :: c in cs ==> GoodChunk(c) }

  // ----- extracting lines is dropping chunks -----

  /** What remains and what is taken of lines followed by others. */
  ghost predicate Extracts(ls: seq<Line>, kept: seq<Line>, bodies: seq<seq<Line>>) {
    && Extract(ls).Ok?
    && Extract(ls).value.kept == kept
    && Bodies(Extract(ls).value.items) == bodies
  }

  lemma KeepOne(l: Line, ls: seq<Line>, kept: seq<Line>, bodies: seq<seq<Line>>)
    requires l != ItemOpen && l != ListEnd && Extracts(ls, kept, bodies)
    ensures Extracts([l] + ls, [l] + kept, bodies)
  {
    hide Extract, KeepFirst, Bodies;
    assert ([l] + ls)[1..] == ls;
    ExtractStep([l] + ls);
    KeepFirstParts(l, Extract(ls));
  }

  lemma {:induction false} KeepSome(front: seq<Line>, ls: seq<Line>, kept: seq<Line>, bodies: seq<seq<Line>>)
    requires forall l :: l in front ==> l != ItemOpen && l != ListEnd
    requires Extracts(ls, kept, bodies)
    ensures Extracts(front + ls, front + kept, bodies)
  {
    hide Extracts;
    if front == [] {
      assert front + ls == ls && front + kept == kept;
    } else {
      assert front[0] in front && forall l :: l in front[1..] ==> l in front;
      KeepSome(front[1..], ls, kept, bodies);
      KeepOne(front[0], front[1..] + ls, front[1..] + kept, bodies);
      assert front + ls == [front[0]] + (front[1..] + ls) && front + kept == [front[0]] + (front[1..] + kept);
    }
  }

  lemma BlockCloses(body: seq<Line>, ls: seq<Line>)
    requires ItemClose !in body
    ensures Find(Block(body) + ls, Close, 1) == |body| + 1
  {
    var all := Block(body) + ls;
    forall j | 1 <= j < |body| + 1 ensures !Is(all[j], Close) {
      assert all[j] == body[j - 1] && body[j - 1] in body;
    }
    FindIs(all, Close, 1, |body| + 1);
  }

  lemma BlockSlices(body: seq<Line>, ls: seq<Line>)
    ensures var all := Block(body) + ls;
      all[..|body| + 2] == Block(body) && all[1..|body| + 1] == body && all[|body| + 2..] == ls
      && all[1..] == body + [ItemClose] + ls
  {
  }

  lemma BlockMerged(body: seq<Line>)
    ensures StatusMerged in Block(body) <==> StatusMerged in body
  {
  }

  lemma TakeBlock(body: seq<Line>, ls: seq<Line>, kept: seq<Line>, bodies: seq<seq<Line>>)
    requires ItemClose !in body && StatusMerged in body && Extracts(ls, kept, bodies)
    ensures Extracts(Block(body) + ls, kept, [body] + bodies)
  {
    hide Extract, TakeItem, Find, Bodies, Block;
    BlockCloses(body, ls);
    BlockSlices(body, ls);
    BlockMerged(body);
    BlockHead(body, ls);
    ExtractStep(Block(body) + ls);
    TakeItemParts(body, Extract(ls));
  }

  lemma BlockHead(body: seq<Line>, ls: seq<Line>)
    ensures var all := Block(body) + ls; |all| >= |body| + 2 && all[0] == ItemOpen
  {
  }

  lemma KeepOpening(all: seq<Line>, kept: seq<Line>, bodies: seq<seq<Line>>)
    requires all != [] && all[0] == ItemOpen && Find(all, Close, 1) < |all|
    requires StatusMerged !in all[..Find(all, Close, 1) + 1] && Extracts(all[1..], kept, bodies)
    ensures Extracts(all, [ItemOpen] + kept, bodies)
  {
    hide Extract, KeepFirst, Find, Bodies;
    ExtractStep(all);
    KeepFirstParts(ItemOpen, Extract(all[1..]));
  }

  lemma KeepBlock(body: seq<Line>, ls: seq<Line>, kept: seq<Line>, bodies: seq<seq<Line>>)
    requires (forall l :: l in body ==> PlainLine(l)) && Extracts(ls, kept, bodies)
    ensures Extracts(Block(body) + ls, Block(body) + kept, bodies)
  {
    hide Extracts, Find;
    var all, inner := Block(body) + ls, body + [ItemClose];
    BlockCloses(body, ls);
    BlockSlices(body, ls);
    BlockMerged(body);
    BlockHead(body, ls);
    KeepSome(inner, ls, kept, bodies);
    KeepOpening(all, inner + kept, bodies);
    assert Block(body) + kept == [ItemOpen] + (inner + kept);
  }

  lemma ExtractOne(c: Chunk, ls: seq<Line>, kept: seq<Line>, bodies: seq<seq<Line>>)
    requires GoodChunk(c) && Extracts(ls, kept, bodies)
    ensures MergedItem(c) ==> Extracts(LinesIn(c) + ls, kept, [c.body] + bodies)
    ensures !MergedItem(c) ==> Extracts(LinesIn(c) + ls, LinesIn(c) + kept, bodies)
  {
    hide Extracts, Block;
    if MergedItem(c) {
      TakeBlock(c.body, ls, kept, bodies);
    } else if c.Single? {
      KeepOne(c.line, ls, kept, bodies);
    } else {
      KeepBlock(c.body, ls, kept, bodies);
    }
  }

  lemma StayStep(cs: seq<Chunk>, kept: seq<Line>)
    requires cs != []
    ensures Lines(Staying(cs)) + kept
         == (if MergedItem(cs[0]) then [] else LinesIn(cs[0])) + (Lines(Staying(cs[1..])) + kept)
  {
    hide LinesIn;
    var more := Staying(cs[1..]);
    if MergedItem(cs[0]) {
      assert [] + more == more;
    } else {
      assert ([cs[0]] + more)[1..] == more;
    }
  }

  lemma {:induction false} ExtractChunks(cs: seq<Chunk>, ls: seq<Line>, kept: seq<Line>, bodies: seq<seq<Line>>)
    requires GoodChunks(cs) && Extracts(ls, kept, bodies)
    ensures Extracts(Lines(cs) + ls, Lines(Staying(cs)) + kept, MergedBodies(cs) + bodies)
  {
    hide Extracts, LinesIn, Staying, GoodChunk, MergedItem;
    if cs == [] {
      NoChunks();
      assert [] + ls == ls && [] + kept == kept && [] + bodies == bodies;
    } else {
      var c, rest, more, taken := cs[0], Lines(cs[1..]) + ls, Lines(Staying(cs[1..])) + kept, MergedBodies(cs[1..]) + bodies;
      assert c in cs && GoodChunk(c) && forall x :: x in cs[1..] ==> x in cs;
      ExtractChunks(cs[1..], ls, kept, bodies);
      ExtractOne(c, rest, more, taken);
      StayStep(cs, kept);
      assert Lines(cs) + ls == LinesIn(c) + rest;
      BodiesStep(cs, bodies);
      assert [] + more == more;
    }
  }

  lemma BodiesStep(cs: seq<Chunk>, bodies: seq<seq<Line>>)
    requires cs != []
    ensures var taken := MergedBodies(cs[1..]) + bodies;
      MergedBodies(cs) + bodies == if MergedItem(cs[0]) then [cs[0].body] + taken else taken
  {
    hide MergedItem;
    var more := MergedBodies(cs[1..]);
    if !MergedItem(cs[0]) { assert [] + more == more; }
  }

  lemma NoChunks()
    ensures Lines([]) == [] && Staying([]) == []
  {
  }

  // ----- the two marks -----

  /** front, the merged mark, mid, the released mark, back, the end of the list. */
  datatype Layout = Layout(front: seq<Chunk>, mid: seq<Chunk>, back: seq<Chunk>, after: seq<Line>)

  function TailLines(y: Layout): seq<Line> {
    Lines(y.front) + ([MergedMark] + (Lines(y.mid) + ([ReleasedMark] + (Lines(y.back) + ([ListEnd] + y.after)))))
  }

  predicate Documented(y: Layout) {
    && GoodChunks(y.front) && GoodChunks(y.mid) && GoodChunks(y.back)
    && NoNotes(Lines(y.front))
    && NoRecord(y.after)
  }

  /** Bodies in the order in which their items stood. */
  function AllMerged(y: Layout): seq<seq<Line>> { MergedBodies(y.front) + (MergedBodies(y.mid) + MergedBodies(y.back)) }

  function MovedBodies(bodies: seq<seq<Line>>, s: RoadmapSync): seq<Line> {
    if bodies == [] then [] else ReleasedItem(bodies[0], s) + MovedBodies(bodies[1..], s)
  }

  function StayingLines(cs: seq<Chunk>): seq<Line> { DropNotes(Lines(Staying(cs))) }

  /** The note, when nothing but comments and blank lines remains before the
      released mark. */
  function NoteIfEmpty(mid: seq<Line>, s: RoadmapSync): seq<Line> {
    if exists l :: l in mid && IsCode(l) then [] else [NoneNote(s.version)]
  }

  /** The items moved, in terms of chunks. */
  function Rearranged(y: Layout, s: RoadmapSync): seq<Line> {
    StayingLines(y.front)
    + [MergedMark] + NoteIfEmpty(StayingLines(y.mid), s) + StayingLines(y.mid)
    + [ReleasedMark] + MovedBodies(AllMerged(y), s) + StayingLines(y.back)
    + [ListEnd] + DropNotes(y.after)
  }

  lemma {:induction false} MovedIsBodies(items: seq<Item>, s: RoadmapSync)
    ensures Moved(items, s) == MovedBodies(Bodies(items), s)
  {
    if items != [] {
      MovedIsBodies(items[1..], s);
      assert Bodies(items)[1..] == Bodies(items[1..]);
    }
  }

  /** What is left of the tail. */
  function KeptLines(y: Layout): seq<Line> {
    Lines(Staying(y.front)) + ([MergedMark] + (Lines(Staying(y.mid)) + ([ReleasedMark] + (Lines(Staying(y.back)) + ([ListEnd] + y.after)))))
  }

  lemma ExtractLayout(y: Layout)
    requires Documented(y)
    ensures Extracts(TailLines(y), KeptLines(y), AllMerged(y))
  {
    hide Extracts, Lines, Staying, MergedBodies, GoodChunks, NoNotes;
    var l0 := [ListEnd] + y.after;
    ExtractEnd(l0);
    var l1, k1 := Lines(y.back) + l0, Lines(Staying(y.back)) + l0;
    ExtractChunks(y.back, l0, l0, []);
    assert MergedBodies(y.back) + [] == MergedBodies(y.back);
    KeepOne(ReleasedMark, l1, k1, MergedBodies(y.back));
    var l2, k2 := [ReleasedMark] + l1, [ReleasedMark] + k1;
    ExtractChunks(y.mid, l2, k2, MergedBodies(y.back));
    var l3, k3 := Lines(y.mid) + l2, Lines(Staying(y.mid)) + k2;
    KeepOne(MergedMark, l3, k3, MergedBodies(y.mid) + MergedBodies(y.back));
    ExtractChunks(y.front, [MergedMark] + l3, [MergedMark] + k3, MergedBodies(y.mid) + MergedBodies(y.back));
  }

  lemma ExtractEnd(ls: seq<Line>)
    requires ls != [] && ls[0] == ListEnd
    ensures Extracts(ls, ls, [])
  {
  }

  // ----- where the marks are in what is left -----

  predicate NoMarks(ls: seq<Line>) { forall l :: l in ls ==> !l.MergedMark? && !l.ReleasedMark? }

  lemma {:induction false} StayingGood(cs: seq<Chunk>)
    requires GoodChunks(cs)
    ensures NoMarks(Lines(Staying(cs))) && NoRecord(Lines(cs))
    ensures forall l :: l in Lines(Staying(cs)) ==> l in Lines(cs)
  {
    hide LinesIn, GoodChunk, Staying, MergedItem;
    if cs == [] {
      NoChunks();
    } else {
      assert cs[0] in cs && GoodChunk(cs[0]) && forall x :: x in cs[1..] ==> x in cs;
      StayingGood(cs[1..]);
      ChunkLines(cs[0]);
      StayStep(cs, []);
      assert Lines(Staying(cs)) + [] == Lines(Staying(cs));
      assert Lines(Staying(cs[1..])) + [] == Lines(Staying(cs[1..]));
    }
  }

  lemma ChunkLines(c: Chunk)
    requires GoodChunk(c)
    ensures NoMarks(LinesIn(c)) && NoRecord(LinesIn(c))
  {
    hide Block;
    if c.ItemBlock? { BlockLines(c.body); }
  }

  lemma BlockLines(body: seq<Line>)
    requires forall l :: l in body ==> PlainLine(l) || l.StatusMerged?
    ensures NoMarks(Block(body)) && NoRecord(Block(body))
  {
  }

  lemma {:induction false} BodiesPlain(cs: seq<Chunk>)
    requires GoodChunks(cs)
    ensures forall b :: b in MergedBodies(cs) ==> forall l :: l in b ==> PlainLine(l) || l.StatusMerged?
  {
    if cs != [] {
      assert cs[0] in cs && GoodChunk(cs[0]) && forall x :: x in cs[1..] ==> x in cs;
      BodiesPlain(cs[1..]);
    }
  }

  lemma {:induction false} ItemBodies(items: seq<Item>)
    ensures forall item :: item in items ==> item.body in Bodies(items)
  {
    if items != [] {
      ItemBodies(items[1..]);
      assert Bodies(items)[0] in Bodies(items);
      forall item | item in items ensures item.body in Bodies(items) {
        if item != items[0] { assert item in items[1..]; }
      }
    }
  }

  lemma PlainFromBodies(items: seq<Item>)
    requires forall b :: b in Bodies(items) ==> forall l :: l in b ==> PlainLine(l) || l.StatusMerged?
    ensures PlainItems(items)
  {
    ItemBodies(items);
  }

  lemma DroppedParts(a: seq<Line>, b: seq<Line>, c: seq<Line>, d: seq<Line>)
    requires NoNotes(a)
    ensures DropNotes(a + ([MergedMark] + (b + ([ReleasedMark] + (c + ([ListEnd] + d))))))
         == a + ([MergedMark] + (DropNotes(b) + ([ReleasedMark] + (DropNotes(c) + ([ListEnd] + DropNotes(d))))))
  {
    hide DropNotes;
    DropNotesIdle(a);
    DropNotesIdle([MergedMark]);
    DropNotesIdle([ReleasedMark]);
    DropNotesIdle([ListEnd]);
    DropNotesAppend([ListEnd], d);
    DropNotesAppend(c, [ListEnd] + d);
    DropNotesAppend([ReleasedMark], c + ([ListEnd] + d));
    DropNotesAppend(b, [ReleasedMark] + (c + ([ListEnd] + d)));
    DropNotesAppend([MergedMark], b + ([ReleasedMark] + (c + ([ListEnd] + d))));
    DropNotesAppend(a, [MergedMark] + (b + ([ReleasedMark] + (c + ([ListEnd] + d)))));
  }

  lemma TwoMarks(a: seq<Line>, b: seq<Line>, rest: seq<Line>)
    requires NoMarks(a) && NoMarks(b)
    ensures var ls := a + ([MergedMark] + (b + ([ReleasedMark] + rest)));
      && Find(ls, Merged, 0) == |a|
      && Find(ls, Released, 0) == |a| + 1 + |b|
      && ls[..|a| + 1] == a + [MergedMark]
      && ls[|a| + 1..|a| + 1 + |b|] == b
      && ls[..|a| + 2 + |b|] == a + [MergedMark] + b + [ReleasedMark]
      && ls[|a| + 2 + |b|..] == rest
  {
    var ls := a + ([MergedMark] + (b + ([ReleasedMark] + rest)));
    forall j | 0 <= j < |a| ensures !Is(ls[j], Merged) && !Is(ls[j], Released) {
      assert ls[j] == a[j] && a[j] in a;
    }
    forall j | |a| < j < |a| + 1 + |b| ensures !Is(ls[j], Released) {
      assert ls[j] == b[j - |a| - 1] && b[j - |a| - 1] in b;
    }
    FindIs(ls, Merged, 0, |a|);
    FindIs(ls, Released, 0, |a| + 1 + |b|);
  }

  lemma BetweenMarks(a: seq<Line>, b: seq<Line>, rest: seq<Line>)
    requires NoMarks(a) && NoMarks(b)
    ensures Between(a + ([MergedMark] + (b + ([ReleasedMark] + rest))), |a|) == b
  {
    hide Find;
    var ls := a + ([MergedMark] + (b + ([ReleasedMark] + rest)));
    TwoMarks(a, b, rest);
    FindAfter(ls, Released, |a| + 1);
  }

  lemma NoteBetween(a: seq<Line>, b: seq<Line>, rest: seq<Line>, s: RoadmapSync)
    requires NoMarks(a) && NoMarks(b)
    ensures AddNote(a + ([MergedMark] + (b + ([ReleasedMark] + rest))), |a|, s)
         == a + ([MergedMark] + (NoteIfEmpty(b, s) + (b + ([ReleasedMark] + rest))))
  {
    hide Between, IsCode;
    var ls := a + ([MergedMark] + (b + ([ReleasedMark] + rest)));
    BetweenMarks(a, b, rest);
    assert ls[..|a| + 1] == a + [MergedMark] && ls[|a| + 1..] == b + ([ReleasedMark] + rest);
  }

  // ----- splicing lines is moving items -----

  lemma LayoutFacts(y: Layout)
    requires Documented(y)
    ensures var a, b, c := Lines(Staying(y.front)), Lines(Staying(y.mid)), Lines(Staying(y.back));
      && NoMarks(a) && NoMarks(b) && NoMarks(c) && NoNotes(a)
    ensures NoMarks(StayingLines(y.mid))
    ensures forall b :: b in AllMerged(y) ==> forall l :: l in b ==> PlainLine(l) || l.StatusMerged?
  {
    hide GoodChunks, Lines, Staying, DropNotes, MergedBodies;
    StayingGood(y.front);
    StayingGood(y.mid);
    StayingGood(y.back);
    DropNotesMembers(Lines(Staying(y.mid)));
    BodiesPlain(y.front);
    BodiesPlain(y.mid);
    BodiesPlain(y.back);
  }

  /** For every documented layout the run succeeds, and what it writes is the same
      chunks in the same order without the merged items, those under the released
      mark in the order in which they stood, and the note only if nothing is left
      between the marks. */
  lemma SyncMovesItems(y: Layout, s: RoadmapSync)
    requires Documented(y)
    ensures SyncTail(TailLines(y), s) == Ok(Rearranged(y, s))
  {
    hide Extract, Find, DropNotes, Lines, Staying, AddNote, NoteIfEmpty, MergedBodies, NoMarks, NoNotes, AllMerged,
      GoodChunks, NoRecord, TailLines, Bodies, Moved, MovedBodies;
    ExtractLayout(y);
    LayoutFacts(y);
    var e := Extract(TailLines(y)).value;
    var a, b, c := Lines(Staying(y.front)), Lines(Staying(y.mid)), Lines(Staying(y.back));
    MovedIsBodies(e.items, s);
    var moved := MovedBodies(AllMerged(y), s);
    TwoMarks(a, b, c + ([ListEnd] + y.after));
    DroppedParts(a, b, c, y.after);
    var b2, rest := DropNotes(b), DropNotes(c) + ([ListEnd] + DropNotes(y.after));
    var k := a + ([MergedMark] + (b2 + ([ReleasedMark] + rest)));
    assert DropNotes(e.kept) == k;
    TwoMarks(a, b2, rest);
    var at := |a| + 1 + |b2|;
    var base := k[..at + 1] + moved + k[at + 1..];
    assert base == a + ([MergedMark] + (b2 + ([ReleasedMark] + (moved + rest))));
    NoteBetween(a, b2, moved + rest, s);
    DropNotesIdle(a);
    RearrangedParts(y, s, a, b2, DropNotes(c), moved);
  }

  lemma RearrangedParts(y: Layout, s: RoadmapSync, a: seq<Line>, b: seq<Line>, c: seq<Line>, moved: seq<Line>)
    requires a == StayingLines(y.front) && b == StayingLines(y.mid) && c == StayingLines(y.back)
    requires moved == MovedBodies(AllMerged(y), s)
    ensures a + ([MergedMark] + (NoteIfEmpty(b, s) + (b + ([ReleasedMark] + (moved + (c + ([ListEnd] + DropNotes(y.after))))))))
         == Rearranged(y, s)
  {
    hide DropNotes, StayingLines, MovedBodies, AllMerged, NoteIfEmpty;
  }

  lemma LayoutIsWellPlaced(y: Layout)
    requires Documented(y)
    ensures WellPlaced(TailLines(y))
  {
    hide Extract, Find, Lines, Staying, MergedBodies, NoMarks, AllMerged, GoodChunks, NoRecord, TailLines, Bodies, PlainItems;
    ExtractLayout(y);
    LayoutFacts(y);
    var e := Extract(TailLines(y)).value;
    var a, b, c := Lines(Staying(y.front)), Lines(Staying(y.mid)), Lines(Staying(y.back));
    PlainFromBodies(e.items);
    TwoMarks(a, b, c + ([ListEnd] + y.after));
  }

  lemma LayoutHasNoRecord(y: Layout)
    requires Documented(y)
    ensures NoRecord(TailLines(y))
  {
    hide GoodChunks, Lines;
    StayingGood(y.front);
    StayingGood(y.mid);
    StayingGood(y.back);
  }

  // ----- the documented file -----

  /** A prepared file: everything up to the opening of the roadmap, then a
      documented tail. */
  predicate DocumentedFile(source: seq<Line>, s: RoadmapSync, y: Layout) {
    && Prepare(source, s).Ok?
    && Find(Prepare(source, s).value, Roadmap, 0) < |Prepare(source, s).value|
    && TailOf(source, s) == TailLines(y)
    && Documented(y)
  }

  /** On the documented layout a run succeeds, and a second one changes nothing. */
  lemma SyncRoadmapTwice(source: seq<Line>, s: RoadmapSync, y: Layout)
    requires DocumentedFile(source, s, y)
    ensures Synced(source, s) == Ok(Stamp(FrontOf(source, s) + Rearranged(y, s), s))
    ensures Synced(Synced(source, s).value, s) == Synced(source, s)
  {
    hide Prepare, SyncTail, Stamp, Find, Rearranged, TailLines, Documented, WellPlaced, NoRecord;
    SyncMovesItems(y, s);
    LayoutIsWellPlaced(y);
    LayoutHasNoRecord(y);
    FileTwice(source, s);
  }

  /** No merged item is left: in the rewritten roadmap nothing can be taken out. */
  lemma NoneLeft(y: Layout, s: RoadmapSync)
    requires Documented(y)
    ensures Settled(Rearranged(y, s))
    ensures Extract(Rearranged(y, s)) == Ok(Extracted(Rearranged(y, s), []))
  {
    hide Extract, Find, Rearranged, TailLines, Documented, Settled, AddNote, NoNotes, PlainItems, MarksInOrder, Moved, DropNotes;
    SyncMovesItems(y, s);
    LayoutIsWellPlaced(y);
    var tail := TailLines(y);
    var e := Extract(tail).value;
    ExtractSettles(tail);
    BaseSettled(e, s);
    BaseMarks(e, s);
    var m := Find(e.kept, Merged, 0);
    if m < |e.kept| { AddNoteSettled(Base(e, s), m, s); }
    SettledIsKept(Rearranged(y, s));
  }
}
