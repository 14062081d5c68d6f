/** Completing a changelog: exactly which lines it drops. */
module ChangelogLoss {
  import opened Options
  import opened Sorting
  import opened Text
  import opened CommitSubject
  import opened Changelog
  import opened ChangelogFacts
  import opened ChangelogResync

  predicate IsText(l: string) { HeadingName(l).None? && !Blank(l) }

  /** The lines that are neither headings nor blank. */
  function Texts(lines: seq<string>): seq<string> {
    if lines == [] then []
    else Texts(lines[..|lines| - 1]) + (if IsText(lines[|lines| - 1]) then [lines[|lines| - 1]] else [])
  }

  /** Those above the first heading. */
  function Preamble(lines: seq<string>): seq<string> {
    if lines == [] || HeadingName(lines[0]).Some? then []
    else (if IsText(lines[0]) then [lines[0]] else []) + Preamble(lines[1..])
  }

  predicate AnyHeading(lines: seq<string>) { exists l :: l in lines && HeadingName(l).Some? }

  lemma {:induction false} PreambleAppend(lines: seq<string>, l: string)
    ensures Preamble(lines + [l]) == Preamble(lines) + (if !AnyHeading(lines) && IsText(l) then [l] else [])
  {
    hide HeadingName, Blank;
    if lines == [] {
      assert [l][1..] == [] && [] + [l] == [l];
    } else {
      assert lines == [lines[0]] + lines[1..] && (lines + [l])[1..] == lines[1..] + [l];
      PreambleAppend(lines[1..], l);
      assert AnyHeading(lines) <==> HeadingName(lines[0]).Some? || AnyHeading(lines[1..]);
    }
  }

  lemma {:induction false} ScanHasCurrent(lines: seq<string>)
    ensures Scan(lines).current.Some? <==> AnyHeading(lines)
  {
    hide HeadingName, Blank, Push, Touch;
    if lines != [] {
      var n := |lines| - 1;
      ScanHasCurrent(lines[..n]);
      assert lines == lines[..n] + [lines[n]];
      assert AnyHeading(lines) <==> AnyHeading(lines[..n]) || HeadingName(lines[n]).Some?;
    }
  }

  lemma {:induction false} TouchExisting(gs: seq<Group>, name: string)
    ensures Existing(Touch(gs, name)) == Existing(gs)
  {
    hide HasGroup;
    if !HasGroup(gs, name) { ExistingAppend(gs, Group(name, [])); }
  }

  lemma {:induction false} ExistingAppend(gs: seq<Group>, g: Group)
    ensures Existing(gs + [g]) == Existing(gs) + g.lines
  {
    if gs == [] {
      assert [g][1..] == [] && gs + [g] == [g];
    } else {
      assert (gs + [g])[1..] == gs[1..] + [g];
      ExistingAppend(gs[1..], g);
    }
  }

  /** What one line adds to the groups read so far. */
  lemma ScanLineKeeps(s: Scanned, l: string)
    ensures multiset(Existing(ScanLine(s, l).groups))
         == multiset(Existing(s.groups)) + (if s.current.Some? && IsText(l) then multiset{l} else multiset{})
  {
    hide HeadingName, Blank, Push, Touch, Existing;
    if HeadingName(l).Some? {
      TouchExisting(s.groups, HeadingName(l).value);
    } else if s.current.Some? && !Blank(l) {
      PushExisting(s.groups, s.current.value, l);
    }
  }

  /** Reading a section keeps every line of text below its first heading. */
  lemma {:induction false} ScanKeeps(lines: seq<string>)
    ensures multiset(Texts(lines)) == multiset(Preamble(lines)) + multiset(Existing(Scan(lines).groups))
  {
    hide IsText, ScanLine, Existing, AnyHeading, Preamble;
    if lines == [] {
      ExistingNone();
      PreambleNone();
    } else {
      var n := |lines| - 1;
      var front, l := lines[..n], lines[n];
      ScanKeeps(front);
      PreambleAppend(front, l);
      ScanHasCurrent(front);
      assert lines == front + [l];
      ScanLineKeeps(Scan(front), l);
    }
  }

  lemma PreambleNone()
    ensures Preamble([]) == []
  {
  }

  lemma ExistingNone()
    ensures Existing([]) == []
  {
  }

  function Bullets(es: seq<Entry>): seq<string> {
    if es == [] then [] else Bullets(es[..|es| - 1]) + [Bullet(es[|es| - 1])]
  }

  lemma {:induction false} PushAllExisting(gs: seq<Group>, es: seq<Entry>)
    ensures multiset(Existing(PushAll(gs, es))) == multiset(Existing(gs)) + multiset(Bullets(es))
  {
    hide Bullet, Push, Existing;
    if es != [] {
      var n := |es| - 1;
      PushAllExisting(gs, es[..n]);
      PushExisting(PushAll(gs, es[..n]), es[n].group, Bullet(es[n]));
    }
  }

  /** A rewritten section has no text above its first heading. */
  lemma RewrittenHasNoPreamble(s: Section, subjects: seq<string>)
    requires Good(Sort(FillGroups(s.body, subjects).groups, ByName()))
    ensures Preamble(NewBody(s, subjects)) == []
  {
    hide FillGroups, Sort;
    var gs := Sort(FillGroups(s.body, subjects).groups, ByName());
    var body := NewBody(s, subjects);
    BlankFirst(body);
    if gs == [] {
      assert Chunks(gs) == [];
      assert body == [""] || body == ["", ""];
      if body == ["", ""] { BlankFirst([""]); }
      assert [""][1..] == [] && ["", ""][1..] == [""];
    } else {
      assert gs[0] in gs;
      ChunksStart(gs);
      HeadingReadBack(gs[0].name);
      assert body[1] == Chunks(gs)[0];
    }
  }

  lemma BlankFirst(lines: seq<string>)
    requires lines != [] && lines[0] == ""
    ensures Preamble(lines) == Preamble(lines[1..])
  {
    assert Blank("") && HeadingName("").None?;
  }

  lemma {:induction false} ChunksStart(gs: seq<Group>)
    requires gs != []
    ensures Chunks(gs) != [] && Chunks(gs)[0] == Heading(gs[0].name)
  {
    if |gs| > 1 { ChunksStart(gs[..|gs| - 1]); }
  }

  /** When a run adds something, the section's lines of text afterwards are those it had,
      without the ones above its first heading, and with the bullets added. */
  lemma FillDropsPreamble(changelog: string, version: string, subjects: seq<string>)
    requires SectionOf(Split(changelog), version).Some? && AddedTo(changelog, version, subjects) != []
    ensures var r, added := Fill(changelog, version, subjects), AddedTo(changelog, version, subjects);
      && SectionOf(Split(r), version).Some?
      && (var was, now := SectionOf(Split(changelog), version).value.body, SectionOf(Split(r), version).value.body;
          multiset(Texts(now)) + multiset(Preamble(was)) == multiset(Texts(was)) + multiset(Bullets(added)))
  {
    hide Scan, Split, Join, SectionOf, WellCut, BodyLine, NewBody, Rebuilt, FillGroups, Good, Fill, Sort, PushAll, Existing, Texts,
      Preamble, Bullets;
    var lines := Split(changelog);
    JoinSplit(changelog);
    CutSplits(lines, version);
    BodyLines(lines, version);
    FilledLines(changelog, version, subjects);
    var s := SectionOf(lines, version).value;
    NewBodyIsRead(s, version, subjects);
    FilledGood(s, subjects);
    var gs, f := Scan(s.body).groups, FillGroups(s.body, subjects);
    PushAllExisting(gs, f.added);
    SortExisting(f.groups);
    ScanKeeps(s.body);
    ScanKeeps(NewBody(s, subjects));
    RewrittenHasNoPreamble(s, subjects);
  }

  // ----- how a rewritten section looks -----

  /** Where the i-th group of a rewritten section starts. */
  function Offset(gs: seq<Group>, i: nat): nat
    requires i <= |gs|
  {
    if i == 0 then 1 else Offset(gs, i - 1) + |gs[i - 1].lines| + 3
  }

  /** From line `at` on: the heading, a blank line, the group's lines, a blank line. */
  predicate StandsAt(body: seq<string>, at: nat, g: Group) {
    && at + |g.lines| + 3 <= |body|
    && body[at] == "### " + g.name && body[at + 1] == "" && body[at + 2..at + 2 + |g.lines|] == g.lines
    && body[at + 2 + |g.lines|] == ""
  }

  lemma {:induction false} OffsetIsLength(gs: seq<Group>, i: nat)
    requires i <= |gs|
    ensures Offset(gs, i) == 1 + |Chunks(gs[..i])|
  {
    if i == 0 {
      assert gs[..0] == [];
    } else {
      OffsetIsLength(gs, i - 1);
      assert gs[..i][..i - 1] == gs[..i - 1];
    }
  }

  lemma {:induction false} ChunksStand(gs: seq<Group>, i: nat)
    requires i < |gs|
    ensures Offset(gs, i) + |gs[i].lines| + 3 <= 1 + |Chunks(gs)|
    ensures ([""] + Chunks(gs))[Offset(gs, i)..Offset(gs, i) + |gs[i].lines| + 3] == Chunk(gs[i])
  {
    hide Chunk;
    ChunkLength(gs[i]);
    var n := |gs| - 1;
    OffsetIsLength(gs, i);
    if i == n {
      assert Chunks(gs) == Chunks(gs[..n]) + Chunk(gs[n]);
    } else {
      ChunksStand(gs[..n], i);
      OffsetSame(gs, i, n);
      assert ([""] + Chunks(gs)) == ([""] + Chunks(gs[..n])) + Chunk(gs[n]);
    }
  }

  lemma {:induction false} OffsetSame(gs: seq<Group>, i: nat, n: nat)
    requires i <= n <= |gs|
    ensures Offset(gs[..n], i) == Offset(gs, i)
  {
    if i > 0 { OffsetSame(gs, i - 1, n); }
  }

  lemma ChunkLength(g: Group)
    ensures |Chunk(g)| == |g.lines| + 3
  {
  }

  /** A rewritten section is a blank line, then each group in alphabetical order with
      its heading set off by blank lines, and a last blank line when no footer follows. */
  lemma RewrittenLooks(s: Section, subjects: seq<string>, i: nat)
    requires i < |FillGroups(s.body, subjects).groups|
    ensures var gs := Sort(FillGroups(s.body, subjects).groups, ByName()); var body := NewBody(s, subjects);
      && |gs| == |FillGroups(s.body, subjects).groups| && body[0] == ""
      && StandsAt(body, Offset(gs, i), gs[i])
      && |body| == Offset(gs, |gs|) + (if s.footer == [] then 1 else 0)
      && (s.footer == [] ==> body[|body| - 1] == "")
  {
    hide FillGroups, Sort, Chunk, Chunks;
    var gs := Sort(FillGroups(s.body, subjects).groups, ByName());
    ChunksStand(gs, i);
    OffsetIsLength(gs, |gs|);
    assert gs[..|gs|] == gs;
    var at, body := Offset(gs, i), NewBody(s, subjects);
    assert body[at..at + |gs[i].lines| + 3] == Chunk(gs[i]);
    ChunkAt(body, at, gs[i]);
  }

  lemma ChunkAt(body: seq<string>, at: nat, g: Group)
    requires at + |g.lines| + 3 <= |body| && body[at..at + |g.lines| + 3] == Chunk(g)
    ensures StandsAt(body, at, g)
  {
    var c := body[at..at + |g.lines| + 3];
    assert c[0] == body[at] && c[1] == body[at + 1] && c[2 + |g.lines|] == body[at + 2 + |g.lines|];
    assert c[2..2 + |g.lines|] == g.lines;
    var b := body[at + 2..at + 2 + |g.lines|];
    forall k | 0 <= k < |b| ensures b[k] == g.lines[k] { assert b[k] == c[2 + k] == c[2..2 + |g.lines|][k]; }
    assert b == g.lines;
  }
}
