/** What completing a changelog section keeps, adds and, run again, repeats. */
module ChangelogFacts {
  import opened Options
  import opened Sorting
  import opened Text
  import opened CommitSubject
  import opened Changelog

  // ----- groups read from a section -----

  predicate GoodName(name: string) { name != "" && Lacks(name, IsLineEnd) }

  predicate BodyLine(l: string) { OneLine(l) && !(SECTION <= l) && !(FOOTER <= l) }

  /** A line that is read back as an entry of the group it stands under. */
  predicate EntryLine(l: string) { BodyLine(l) && !Blank(l) && HeadingName(l).None? }

  predicate GoodGroup(g: Group) { GoodName(g.name) && forall l :: l in g.lines ==> EntryLine(l) }

  predicate DistinctNames(gs: seq<Group>) { forall i, j :: 0 <= i < j < |gs| ==> gs[i].name != gs[j].name }

  predicate Good(gs: seq<Group>) { DistinctNames(gs) && forall g :: g in gs ==> GoodGroup(g) }

  /** The lines under one name, none when there is no such group. */
  function LinesOf(gs: seq<Group>, name: string): seq<string> {
    if gs == [] then [] else if gs[0].name == name then gs[0].lines else LinesOf(gs[1..], name)
  }

  lemma {:induction false} PushLines(gs: seq<Group>, name: string, line: string, n: string)
    ensures LinesOf(Push(gs, name, line), n) == LinesOf(gs, n) + (if n == name then [line] else [])
    ensures HasGroup(Push(gs, name, line), n) <==> HasGroup(gs, n) || n == name
  {
    var p := Push(gs, name, line);
    if gs == [] {
      assert p[0] in p && p[1..] == [];
    } else {
      assert p == [p[0]] + p[1..] && gs == [gs[0]] + gs[1..];
      assert p[0] in p && gs[0] in gs && p[0].name == gs[0].name;
      assert HasGroup(gs, n) <==> gs[0].name == n || HasGroup(gs[1..], n);
      assert HasGroup(p, n) <==> p[0].name == n || HasGroup(p[1..], n);
      if gs[0].name != name {
        PushLines(gs[1..], name, line, n);
        assert p[1..] == Push(gs[1..], name, line);
      }
    }
  }

  lemma {:induction false} PushExisting(gs: seq<Group>, name: string, line: string)
    ensures multiset(Existing(Push(gs, name, line))) == multiset(Existing(gs)) + multiset{line}
  {
    var p := Push(gs, name, line);
    if gs == [] {
      assert p[1..] == [] && p[0].lines == [line] && [line] + [] == [line];
    } else if gs[0].name == name {
      assert p[1..] == gs[1..];
    } else {
      PushExisting(gs[1..], name, line);
      assert p[1..] == Push(gs[1..], name, line);
    }
  }

  lemma {:induction false} PushGood(gs: seq<Group>, name: string, line: string)
    requires Good(gs) && GoodName(name) && EntryLine(line)
    ensures Good(Push(gs, name, line))
  {
    hide GoodName, EntryLine;
    var p := Push(gs, name, line);
    if gs != [] {
      assert gs[0] in gs && GoodGroup(gs[0]) && forall g :: g in gs[1..] ==> g in gs;
      if gs[0].name == name {
        assert p[1..] == gs[1..];
      } else {
        PushGood(gs[1..], name, line);
        assert p[1..] == Push(gs[1..], name, line);
        PushLines(gs[1..], name, line, gs[0].name);
        assert !HasGroup(gs[1..], gs[0].name);
        forall j | 0 < j < |p| ensures p[j].name != p[0].name {
          assert p[j] == p[1..][j - 1];
        }
      }
    }
  }

  lemma {:induction false} TouchGood(gs: seq<Group>, name: string)
    requires Good(gs) && GoodName(name)
    ensures Good(Touch(gs, name)) && HasGroup(Touch(gs, name), name)
  {
    if !HasGroup(gs, name) {
      var t := Touch(gs, name);
      assert Group(name, []) in t;
      assert forall i :: 0 <= i < |gs| ==> gs[i] in gs;
    }
  }

  lemma NoGroups()
    ensures Good([])
  {
  }

  lemma {:induction false} ScanGood(body: seq<string>)
    requires forall l :: l in body ==> BodyLine(l)
    ensures Good(Scan(body).groups)
    ensures Scan(body).current.Some? ==> GoodName(Scan(body).current.value)
  {
    hide BodyLine, Good, Blank;
    NoGroups();
    if body != [] {
      var front, l := body[..|body| - 1], body[|body| - 1];
      assert l in body && forall x :: x in front ==> x in body;
      ScanGood(front);
      var s := Scan(front);
      if HeadingName(l).Some? {
        TouchGood(s.groups, HeadingName(l).value);
      } else if s.current.Some? && !Blank(l) {
        PushGood(s.groups, s.current.value, l);
      }
    }
  }

  // ----- writing groups and reading them back -----

  lemma ScanAppend(body: seq<string>, l: string)
    ensures Scan(body + [l]) == ScanLine(Scan(body), l)
  {
    assert (body + [l])[..|body|] == body;
  }

  lemma ScanNothing()
    ensures Scan([]) == Scanned([], None)
  {
  }

  lemma ScanSkips(body: seq<string>)
    ensures Scan(body + [""]) == Scan(body)
  {
    ScanAppend(body, "");
  }

  lemma {:induction false} PushLast(gs: seq<Group>, g: Group, line: string)
    requires !HasGroup(gs, g.name)
    ensures Push(gs + [g], g.name, line) == gs + [Group(g.name, g.lines + [line])]
  {
    if gs == [] {
      assert ([] + [g])[1..] == [] && [] + [g] == [g];
    } else {
      assert gs[0] in gs && forall x :: x in gs[1..] ==> x in gs;
      assert (gs + [g])[1..] == gs[1..] + [g];
      PushLast(gs[1..], g, line);
    }
  }

  lemma {:induction false} ScanLines(body: seq<string>, gs: seq<Group>, name: string, lines: seq<string>)
    requires Scan(body) == Scanned(gs + [Group(name, [])], Some(name)) && !HasGroup(gs, name)
    requires forall l :: l in lines ==> EntryLine(l)
    ensures Scan(body + lines) == Scanned(gs + [Group(name, lines)], Some(name))
  {
    if lines == [] {
      assert body + lines == body;
    } else {
      var n := |lines| - 1;
      assert lines[n] in lines && EntryLine(lines[n]);
      ScanLines(body, gs, name, lines[..n]);
      assert body + lines == body + lines[..n] + [lines[n]];
      ScanAppend(body + lines[..n], lines[n]);
      PushLast(gs, Group(name, lines[..n]), lines[n]);
      assert lines[..n] + [lines[n]] == lines;
    }
  }

  lemma NotPrefix(p: string, s: string, i: nat)
    requires i < |p| && i < |s| && p[i] != s[i]
    ensures !(p <= s)
  {
  }

  lemma HeadingReadBack(name: string)
    requires GoodName(name)
    ensures HeadingName(Heading(name)) == Some(name)
    ensures BodyLine(Heading(name))
  {
    var h := Heading(name);
    assert h[4..] == name && h[..4] == "### ";
    assert IsLineEnd('\n');
    NotPrefix(SECTION, h, 2);
    NotPrefix(FOOTER, h, 0);
  }

  lemma ScanChunk(body: seq<string>, g: Group)
    requires GoodGroup(g) && !HasGroup(Scan(body).groups, g.name)
    ensures Scan(body + Chunk(g)) == Scanned(Scan(body).groups + [g], Some(g.name))
  {
    hide Scan, GoodName, EntryLine, HasGroup;
    var b1 := body + [Heading(g.name)];
    HeadingReadBack(g.name);
    ScanAppend(body, Heading(g.name));
    ScanSkips(b1);
    ScanLines(b1 + [""], Scan(body).groups, g.name, g.lines);
    ScanSkips(b1 + [""] + g.lines);
    assert body + Chunk(g) == b1 + [""] + g.lines + [""];
  }

  lemma {:induction false} ScanRebuilt(gs: seq<Group>)
    requires Good(gs)
    ensures Scan([""] + Chunks(gs)).groups == gs
  {
    hide GoodGroup, Scan, Chunk;
    if gs == [] {
      assert [""] + Chunks(gs) == [] + [""];
      ScanSkips([]);
      ScanNothing();
    } else {
      var n := |gs| - 1;
      assert gs[n] in gs && forall g :: g in gs[..n] ==> g in gs;
      ScanRebuilt(gs[..n]);
      assert !HasGroup(gs[..n], gs[n].name);
      ScanChunk([""] + Chunks(gs[..n]), gs[n]);
      assert [""] + Chunks(gs) == [""] + Chunks(gs[..n]) + Chunk(gs[n]);
      assert gs[..n] + [gs[n]] == gs;
    }
  }

  lemma {:induction false} ChunksAreBody(gs: seq<Group>)
    requires Good(gs)
    ensures forall l :: l in Chunks(gs) ==> BodyLine(l)
  {
    hide BodyLine, HeadingName, Blank, GoodName, Heading;
    if gs != [] {
      var n := |gs| - 1;
      assert gs[n] in gs && GoodGroup(gs[n]) && forall g :: g in gs[..n] ==> g in gs;
      ChunksAreBody(gs[..n]);
      HeadingReadBack(gs[n].name);
      BlankIsBody();
    }
  }

  lemma BlankIsBody()
    ensures BodyLine("")
  {
  }

  // ----- groups in alphabetical order -----

  lemma ByNameIsPreorder()
    ensures TotalPreorder(ByName())
  {
    var leq := ByName();
    forall x, y ensures leq(x, y) || leq(y, x) { StringLeqTotal(x.name, y.name); }
    forall x, y, z | leq(x, y) && leq(y, z) ensures leq(x, z) { StringLeqTransitive(x.name, y.name, z.name); }
  }

  lemma {:induction false} InsertExisting(g: Group, gs: seq<Group>)
    ensures multiset(Existing(Insert(g, gs, ByName()))) == multiset(g.lines) + multiset(Existing(gs))
  {
    hide StringLeq;
    if gs == [] {
      assert [g][1..] == [];
    } else if ByName()(g, gs[0]) {
      assert ([g] + gs)[1..] == gs;
    } else {
      InsertExisting(g, gs[1..]);
      var t := Insert(g, gs[1..], ByName());
      assert ([gs[0]] + t)[1..] == t;
    }
  }

  lemma {:induction false} InsertLines(g: Group, gs: seq<Group>, n: string)
    requires !HasGroup(gs, g.name)
    ensures LinesOf(Insert(g, gs, ByName()), n) == if n == g.name then g.lines else LinesOf(gs, n)
  {
    hide StringLeq;
    if gs == [] {
      assert [g][1..] == [];
    } else if ByName()(g, gs[0]) {
      assert ([g] + gs)[1..] == gs;
    } else {
      assert gs[0] in gs && forall x :: x in gs[1..] ==> x in gs;
      InsertLines(g, gs[1..], n);
      var t := Insert(g, gs[1..], ByName());
      assert ([gs[0]] + t)[1..] == t;
    }
  }

  lemma MultisetGroups(gs: seq<Group>, hs: seq<Group>)
    requires multiset(gs) == multiset(hs)
    ensures forall g :: g in gs <==> g in hs
    ensures forall n :: HasGroup(gs, n) <==> HasGroup(hs, n)
  {
    forall g ensures g in gs <==> g in hs {
      assert g in gs <==> g in multiset(gs);
      assert g in hs <==> g in multiset(hs);
    }
  }

  lemma {:induction false} InsertDistinct(g: Group, gs: seq<Group>)
    requires DistinctNames(gs) && !HasGroup(gs, g.name)
    ensures DistinctNames(Insert(g, gs, ByName()))
  {
    if gs != [] && !ByName()(g, gs[0]) {
      assert gs[0] in gs && forall x :: x in gs[1..] ==> x in gs;
      InsertDistinct(g, gs[1..]);
      var t := Insert(g, gs[1..], ByName());
      MultisetGroups(t, [g] + gs[1..]);
      forall j | 0 <= j < |t| ensures t[j].name != gs[0].name {
        assert t[j] in [g] + gs[1..];
      }
    }
  }

  lemma {:induction false} SortExisting(gs: seq<Group>)
    ensures multiset(Existing(Sort(gs, ByName()))) == multiset(Existing(gs))
  {
    if gs != [] {
      SortExisting(gs[1..]);
      InsertExisting(gs[0], Sort(gs[1..], ByName()));
    }
  }

  lemma {:induction false} SortDistinct(gs: seq<Group>)
    requires DistinctNames(gs)
    ensures DistinctNames(Sort(gs, ByName()))
  {
    if gs != [] {
      SortDistinct(gs[1..]);
      MultisetGroups(Sort(gs[1..], ByName()), gs[1..]);
      assert !HasGroup(gs[1..], gs[0].name);
      InsertDistinct(gs[0], Sort(gs[1..], ByName()));
    }
  }

  lemma {:induction false} SortLines(gs: seq<Group>, n: string)
    requires DistinctNames(gs)
    ensures LinesOf(Sort(gs, ByName()), n) == LinesOf(gs, n)
  {
    if gs != [] {
      SortLines(gs[1..], n);
      MultisetGroups(Sort(gs[1..], ByName()), gs[1..]);
      assert !HasGroup(gs[1..], gs[0].name);
      InsertLines(gs[0], Sort(gs[1..], ByName()), n);
    }
  }

  lemma SortGood(gs: seq<Group>)
    requires Good(gs)
    ensures Good(Sort(gs, ByName()))
  {
    SortDistinct(gs);
    MultisetGroups(Sort(gs, ByName()), gs);
  }

  // ----- what the subjects add -----

  function PushAll(gs: seq<Group>, es: seq<Entry>): seq<Group> {
    if es == [] then gs else
      var n := |es| - 1;
      Push(PushAll(gs, es[..n]), es[n].group, Bullet(es[n]))
  }

  function BulletsFor(es: seq<Entry>, name: string): seq<string> {
    if es == [] then [] else
      var n := |es| - 1;
      BulletsFor(es[..n], name) + (if es[n].group == name then [Bullet(es[n])] else [])
  }

  function PrsOf(es: seq<Entry>): set<nat> { set e | e in es && HasPr(e) :: e.pr.value }

  predicate GoodEntry(e: Entry) { OneLine(e.text) && GoodName(e.group) }

  lemma PrintableName(name: string)
    requires name != "" && forall i :: 0 <= i < |name| ==> ' ' <= name[i] <= 'z'
    ensures GoodName(name)
  {
  }

  lemma GroupNames(kind: string)
    requires GroupOf(kind).Some?
    ensures GoodName(GroupOf(kind).value)
  {
    hide GoodName;
    PrintableName("Features");
    PrintableName("Bug Fixes");
    PrintableName("Documentation");
    PrintableName("Performance");
    PrintableName("Refactor");
    PrintableName("Styling");
    PrintableName("Testing");
    PrintableName("Miscellaneous Tasks");
    PrintableName("Revert");
  }

  lemma ParsedIsGood(subject: string)
    requires ParseCommitSubject(subject).Some?
    ensures GoodEntry(ParseCommitSubject(subject).value)
  {
    hide GoodName, GroupOf, MatchSubject, TakePr, Skipped;
    ParsedIsOneLine(subject);
    GroupNames(MatchSubject(subject).value.kind);
  }

  lemma BulletIsEntry(e: Entry)
    requires GoodEntry(e)
    ensures EntryLine(Bullet(e))
  {
    hide GoodName, Decimal, HasPr;
    var b := Bullet(e);
    assert b[0] == '-' && b[0] in b && !IsSpace('-');
    NotPrefix(SECTION, b, 0);
    NotPrefix(FOOTER, b, 0);
    NotPrefix("### ", b, 0);
    BulletIsOneLine(e);
  }

  lemma BulletIsOneLine(e: Entry)
    requires OneLine(e.text)
    ensures OneLine(Bullet(e))
  {
    hide Decimal;
    if HasPr(e) {
      var d := Decimal(e.pr.value);
      assert !IsDigit('\n') && '\n' !in d;
      assert '\n' !in REPO;
    }
  }

  lemma {:induction false} AddAllFacts(subjects: seq<string>, start: Filling, text: string)
    requires start.added == []
    ensures var f := AddAll(subjects, start, text);
      && f.groups == PushAll(start.groups, f.added)
      && f.prs == start.prs + PrsOf(f.added)
      && (forall e :: e in f.added ==> GoodEntry(e))
  {
    hide ParseCommitSubject, Bullet, GoodEntry, Push, Seen, HasPr;
    if subjects != [] {
      var n := |subjects| - 1;
      AddAllFacts(subjects[..n], start, text);
      var g := AddAll(subjects[..n], start, text);
      var p := ParseCommitSubject(subjects[n]);
      if p.Some? && !Seen(p.value, g.prs, text) {
        ParsedIsGood(subjects[n]);
        assert (g.added + [p.value])[..|g.added|] == g.added;
        PrsOfAppend(g.added, p.value);
      }
    }
  }

  lemma PrsOfAppend(es: seq<Entry>, e: Entry)
    ensures PrsOf(es + [e]) == PrsOf(es) + (if HasPr(e) then {e.pr.value} else {})
  {
  }

  lemma {:induction false} PushAllFacts(gs: seq<Group>, es: seq<Entry>)
    requires Good(gs) && forall e :: e in es ==> GoodEntry(e)
    ensures Good(PushAll(gs, es))
    ensures |Existing(PushAll(gs, es))| == |Existing(gs)| + |es|
    ensures multiset(Existing(gs)) <= multiset(Existing(PushAll(gs, es)))
    ensures forall e :: e in es ==> Bullet(e) in Existing(PushAll(gs, es))
  {
    hide Good, Bullet, GoodEntry;
    if es != [] {
      var n := |es| - 1;
      assert es[n] in es && forall e :: e in es[..n] ==> e in es;
      PushAllFacts(gs, es[..n]);
      var p, b := PushAll(gs, es[..n]), Bullet(es[n]);
      assert GoodEntry(es[n]);
      BulletIsEntry(es[n]);
      GoodGroupName(es[n]);
      PushGood(p, es[n].group, b);
      PushExisting(p, es[n].group, b);
      var q := PushAll(gs, es);
      assert |multiset(Existing(q))| == |multiset(Existing(p))| + 1;
      forall e | e in es ensures Bullet(e) in Existing(q) {
        assert Bullet(e) in multiset(Existing(q)) by {
          if e in es[..n] { assert Bullet(e) in multiset(Existing(p)); } else { assert e == es[n]; }
        }
      }
    }
  }

  lemma GoodGroupName(e: Entry)
    requires GoodEntry(e)
    ensures GoodName(e.group)
  {
  }

  lemma {:induction false} PushAllLines(gs: seq<Group>, es: seq<Entry>, n: string)
    ensures LinesOf(PushAll(gs, es), n) == LinesOf(gs, n) + BulletsFor(es, n)
    ensures HasGroup(PushAll(gs, es), n) <==> HasGroup(gs, n) || AddsTo(es, n)
  {
    hide Bullet, Push, HasGroup, LinesOf, AddsTo;
    if es == [] {
      AddsNothing(n);
      assert LinesOf(gs, n) + [] == LinesOf(gs, n);
    } else {
      var k := |es| - 1;
      PushAllLines(gs, es[..k], n);
      PushLines(PushAll(gs, es[..k]), es[k].group, Bullet(es[k]), n);
      AddsOneMore(es, n);
      BulletsUnfold(es, n);
    }
  }

  /** Some entry goes to this group. */
  predicate AddsTo(es: seq<Entry>, n: string) { exists e :: e in es && e.group == n }

  lemma AddsNothing(n: string)
    ensures !AddsTo([], n)
  {
  }

  lemma AddsOneMore(es: seq<Entry>, n: string)
    requires es != []
    ensures AddsTo(es, n) <==> AddsTo(es[..|es| - 1], n) || es[|es| - 1].group == n
  {
    assert es == es[..|es| - 1] + [es[|es| - 1]];
  }

  lemma BulletsUnfold(es: seq<Entry>, n: string)
    requires es != []
    ensures var k := |es| - 1;
      BulletsFor(es, n) == BulletsFor(es[..k], n) + (if es[k].group == n then [Bullet(es[k])] else [])
  {
    hide Bullet;
  }
}
