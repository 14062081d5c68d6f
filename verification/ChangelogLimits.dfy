/** Completing a changelog covers every subject, adds no pull request twice, and
    is not always idempotent: an entry without a number can be found across two
    neighbouring lines that the rewriting then moves apart. */
module ChangelogLimits {
  import opened Options
  import opened Sorting
  import opened Text
  import opened CommitSubject
  import opened Changelog
  import opened ChangelogFacts
  import opened ChangelogResync

  // ----- nothing is missing, nothing with a number comes twice -----

  /** After a run the section mentions every subject's pull request, and a subject
      without one has its bullet unless its text was found before. */
  lemma FillCovers(changelog: string, version: string, subjects: seq<string>, subject: string)
    requires SectionOf(Split(changelog), version).Some?
    requires subject in subjects && ParseCommitSubject(subject).Some?
    ensures var e := ParseCommitSubject(subject).value;
      var now := Existing(GroupsOf(Fill(changelog, version, subjects), version));
      if HasPr(e) then e.pr.value in PrRefs(Join(now))
      else Includes(Normalize(Join(Existing(GroupsOf(changelog, version)))), Normalize(e.text)) || Bullet(e) in now
  {
    hide Scan, Split, Join, SectionOf, WellCut, BodyLine, NewBody, Rebuilt, PrRefs, Normalize, ParseCommitSubject,
      PushAll, GoodEntry, Good, Existing, PrsOf, Includes, Sort, Bullet;
    var lines := Split(changelog);
    JoinSplit(changelog);
    CutSplits(lines, version);
    BodyLines(lines, version);
    var s := SectionOf(lines, version).value;
    var gs, f := Scan(s.body).groups, FillGroups(s.body, subjects);
    AfterAdding(subjects, Filling(gs, PrRefs(Join(Existing(gs))), []), Normalize(Join(Existing(gs))));
    FilledGood(s, subjects);
    if f.added == [] {
      assert PrsOf([]) == {} by { NoPrs(); }
    } else {
      FilledLines(changelog, version, subjects);
      NewBodyIsRead(s, version, subjects);
      SecondRunSees(gs, f.added);
      PushAllFacts(gs, f.added);
      SortExisting(f.groups);
      var now := Existing(Sort(f.groups, ByName()));
      forall e | e in f.added ensures Bullet(e) in now {
        assert Bullet(e) in multiset(Existing(f.groups));
        assert Bullet(e) in multiset(now);
      }
    }
  }

  lemma NoPrs()
    ensures PrsOf([]) == {}
  {
  }

  ghost predicate EachPrOnce(added: seq<Entry>, known: set<nat>) {
    && (forall i :: 0 <= i < |added| && HasPr(added[i]) ==> added[i].pr.value !in known)
    && (forall i, j :: 0 <= i < j < |added| && HasPr(added[i]) && HasPr(added[j]) ==>
          added[i].pr.value != added[j].pr.value)
  }

  lemma {:induction false} AddAllOnce(subjects: seq<string>, start: Filling, text: string)
    requires start.added == []
    ensures EachPrOnce(AddAll(subjects, start, text).added, start.prs)
  {
    hide ParseCommitSubject, Bullet, Push, Includes, Normalize;
    if subjects != [] {
      var n := |subjects| - 1;
      AddAllOnce(subjects[..n], start, text);
      AddAllFacts(subjects[..n], start, text);
      var g := AddAll(subjects[..n], start, text);
      assert forall i :: 0 <= i < |g.added| ==> g.added[i] in g.added;
    }
  }

  /** The numbers a run adds are new to the section and all different. */
  lemma FillAddsPrsOnce(changelog: string, version: string, subjects: seq<string>)
    ensures EachPrOnce(AddedTo(changelog, version, subjects), PrRefs(Join(Existing(GroupsOf(changelog, version)))))
  {
    hide Scan, Split, Join, SectionOf, Normalize, PrRefs, AddAll;
    if SectionOf(Split(changelog), version).Some? {
      var existing := Join(Existing(GroupsOf(changelog, version)));
      AddAllOnce(subjects, Filling(GroupsOf(changelog, version), PrRefs(existing), []), Normalize(existing));
    }
  }

  // ----- exactly when a second run changes nothing -----

  predicate InOneLine(existing: seq<string>, part: string) {
    exists l :: l in existing && Includes(Normalize(l), part)
  }

  /** Found in the entry lines joined together, but in no single one of them. */
  predicate OnlySpans(existing: seq<string>, part: string) {
    Includes(Normalize(Join(existing)), part) && !InOneLine(existing, part)
  }

  /** The entry lines once the bullets are appended to their groups and the groups
      put in alphabetical order. */
  function Regrouped(changelog: string, version: string, subjects: seq<string>): seq<string> {
    Existing(Sort(PushAll(GroupsOf(changelog, version), AddedTo(changelog, version, subjects)), ByName()))
  }

  /** Every text without a number that is found only across lines is still found
      when the lines are regrouped. */
  predicate SpansSurvive(subjects: seq<string>, existing: seq<string>, regrouped: seq<string>) {
    forall s :: s in subjects && ParseCommitSubject(s).Some? && !HasPr(ParseCommitSubject(s).value) ==>
      var part := Normalize(ParseCommitSubject(s).value.text);
      OnlySpans(existing, part) ==> Includes(Normalize(Join(regrouped)), part)
  }

  lemma ExistingGrows(changelog: string, version: string, subjects: seq<string>)
    requires SectionOf(Split(changelog), version).Some? && AddedTo(changelog, version, subjects) != []
    ensures multiset(Existing(GroupsOf(changelog, version)))
         <= multiset(Existing(GroupsOf(Fill(changelog, version, subjects), version)))
  {
    hide Scan, Split, Join, SectionOf, WellCut, BodyLine, NewBody, Rebuilt, PushAll, GoodEntry, Good, Existing, Sort, FillGroups, Fill;
    var lines := Split(changelog);
    JoinSplit(changelog);
    CutSplits(lines, version);
    BodyLines(lines, version);
    var s := SectionOf(lines, version).value;
    FilledGood(s, subjects);
    FilledLines(changelog, version, subjects);
    NewBodyIsRead(s, version, subjects);
    PushAllFacts(Scan(s.body).groups, FillGroups(s.body, subjects).added);
    SortExisting(FillGroups(s.body, subjects).groups);
  }

  lemma RegroupedIsRead(changelog: string, version: string, subjects: seq<string>)
    requires SectionOf(Split(changelog), version).Some? && AddedTo(changelog, version, subjects) != []
    ensures Existing(GroupsOf(Fill(changelog, version, subjects), version)) == Regrouped(changelog, version, subjects)
  {
    hide Scan, Split, Join, SectionOf, WellCut, BodyLine, NewBody, Rebuilt, PushAll, GoodEntry, Good, Existing, Sort, FillGroups, Fill;
    var lines := Split(changelog);
    JoinSplit(changelog);
    CutSplits(lines, version);
    BodyLines(lines, version);
    var s := SectionOf(lines, version).value;
    FilledGood(s, subjects);
    FilledLines(changelog, version, subjects);
    NewBodyIsRead(s, version, subjects);
  }

  lemma FoundInOneLine(existing: seq<string>, now: seq<string>, part: string)
    requires multiset(existing) <= multiset(now)
    requires InOneLine(existing, part)
    ensures Includes(Normalize(Join(now)), part)
  {
    hide Normalize, Includes;
    var l :| l in existing && Includes(Normalize(l), part);
    assert l in multiset(existing) && l in multiset(now);
    NormalizeMember(now, l, part);
    NormalizeJoin(now);
  }

  /** A text that is not found at all was added, and its bullet is found. */
  lemma FoundInBullet(now: seq<string>, e: Entry)
    requires !HasPr(e) && Bullet(e) in now
    ensures Includes(Normalize(Join(now)), Normalize(e.text))
  {
    hide Normalize, Includes, Bullet;
    BulletHoldsText(e);
    IncludesItself(Normalize(e.text));
    NormalizeMember(now, Bullet(e), Normalize(e.text));
    NormalizeJoin(now);
  }

  /** Running twice equals running once if and only if the first run has nothing
      to add or every text without a number that is found only across two lines
      is still found after these are regrouped. */
  lemma FillTwiceIff(changelog: string, version: string, subjects: seq<string>)
    ensures var once := Fill(changelog, version, subjects);
      && (Fill(once, version, subjects) == once)
           == (AddedTo(changelog, version, subjects) == []
               || SpansSurvive(subjects, Existing(GroupsOf(changelog, version)), Regrouped(changelog, version, subjects)))
  {
    hide Scan, Split, Join, SectionOf, Normalize, ParseCommitSubject, PushAll, Existing, Includes, Sort, Bullet, Fill, FillGroups,
      HasPr, AddAll, GroupsOf, AddedTo, InOneLine, PrRefs, Regrouped;
    FillTwiceWhenFound(changelog, version, subjects);
    if AddedTo(changelog, version, subjects) != [] {
      AddsOnlyToSection(changelog, version, subjects);
      RegroupedIsRead(changelog, version, subjects);
      ExistingGrows(changelog, version, subjects);
      var was, now := Existing(GroupsOf(changelog, version)), Regrouped(changelog, version, subjects);
      forall s | s in subjects && ParseCommitSubject(s).Some? && !HasPr(ParseCommitSubject(s).value)
        ensures var part := Normalize(ParseCommitSubject(s).value.text);
          !OnlySpans(was, part) ==> Includes(Normalize(Join(now)), part)
      {
        var part := Normalize(ParseCommitSubject(s).value.text);
        FillCovers(changelog, version, subjects, s);
        if InOneLine(was, part) {
          FoundInOneLine(was, now, part);
        } else if !OnlySpans(was, part) {
          FoundInBullet(now, ParseCommitSubject(s).value);
        }
      }
    }
  }

  /** In particular whenever no text without a number is found only across lines. */
  lemma FillIdempotentUnlessSpanning(changelog: string, version: string, subjects: seq<string>)
    requires forall s :: s in subjects && ParseCommitSubject(s).Some? && !HasPr(ParseCommitSubject(s).value) ==>
      !OnlySpans(Existing(GroupsOf(changelog, version)), Normalize(ParseCommitSubject(s).value.text))
    ensures var once := Fill(changelog, version, subjects); Fill(once, version, subjects) == once
  {
    hide Normalize, ParseCommitSubject, OnlySpans, Fill, HasPr, GroupsOf, AddedTo, Regrouped, Existing, Includes;
    FillTwiceIff(changelog, version, subjects);
  }

  // ----- an input that a second run changes -----

  const ONE := Entry("Z", "1", None)
  const TWO := Entry("A", "2", None)
  const THREE := Entry("Features", "3", None)

  /** The section of version 1: group Z with the line `- 1`, then A with `- 2`. */
  function Spanning(): Section {
    Section([SectionMark("1")], [""] + Chunks([Group("Z", [Bullet(ONE)]), Group("A", [Bullet(TWO)])]) + [""], [], [])
  }

  const SUBJECTS := ["fix: 1 2", "feat: 3"]

  lemma ParsedSubjects()
    ensures ParseCommitSubject("fix: 1 2") == Some(Entry("Bug Fixes", "1 2", None))
    ensures ParseCommitSubject("feat: 3") == Some(THREE)
  {
    hide ParseCommitSubject;
    assert "fix: 1 2" == Subject("fix", None, false, "1 2");
    NoPrAtEnd("1 2");
    PlainSubjectReadsBack("fix", None, false, "1 2");
    assert "feat: 3" == Subject("feat", None, false, "3");
    NoPrAtEnd("3");
    PlainSubjectReadsBack("feat", None, false, "3");
    CapitaliseDigit("1 2");
    CapitaliseDigit("3");
  }

  lemma CapitaliseDigit(s: string)
    requires s != "" && IsDigit(s[0])
    ensures Capitalise(s) == s
  {
    assert [s[0]] + s[1..] == s;
  }

  lemma Normalized()
    ensures Normalize("1") == "1" && Normalize("2") == "2" && Normalize("3") == "3" && Normalize("1 2") == "1 2"
    ensures Normalize(Bullet(ONE)) == "1" && Normalize(Bullet(TWO)) == "2" && Normalize(Bullet(THREE)) == "3"
  {
    BulletHoldsText(ONE);
    BulletHoldsText(TWO);
    BulletHoldsText(THREE);
    NormalizeDigit("1");
    NormalizeDigit("2");
    NormalizeDigit("3");
    assert "1 2"[1..] == " 2" && " 2"[1..] == "2";
    assert Normalize(" 2") == Normalize("2");
    assert Normalize("1 2") == Glue("1", Normalize(" 2"));
    assert "1" + " " + "2" == "1 2";
  }

  lemma NormalizeDigit(s: string)
    requires |s| == 1 && IsDigit(s[0])
    ensures Normalize(s) == s
  {
    assert s[1..] == "" && [Lower(s[0])] == s;
  }

  lemma SpanningIsGood()
    ensures Good([Group("Z", [Bullet(ONE)]), Group("A", [Bullet(TWO)])])
  {
    hide GoodName, EntryLine, Bullet;
    PrintableName("Z");
    PrintableName("A");
    BulletIsEntry(ONE);
    BulletIsEntry(TWO);
  }

  lemma SpanningIsRead()
    ensures var d := Join(Whole(Spanning()));
      SectionOf(Split(d), "1") == Some(Spanning())
      && GroupsOf(d, "1") == [Group("Z", [Bullet(ONE)]), Group("A", [Bullet(TWO)])]
  {
    hide Chunks, BodyLine, Good, Bullet, FirstAt, Split, Join, Scan;
    var gs := [Group("Z", [Bullet(ONE)]), Group("A", [Bullet(TWO)])];
    var s := Spanning();
    SpanningIsGood();
    ChunksAreBody(gs);
    BlankIsBody();
    BodyLineMarks(s.body);
    CutIs(s, "1");
    ScanRebuilt(gs);
    ScanSkips([""] + Chunks(gs));
    MarkIsOneLine();
    BodyIsOneLine(s.body);
    assert AllOneLine(Whole(s));
    SplitJoin(Whole(s));
  }

  lemma MarkIsOneLine()
    ensures OneLine(SectionMark("1"))
  {
  }

  lemma BodyIsOneLine(body: seq<string>)
    requires forall l :: l in body ==> BodyLine(l)
    ensures AllOneLine(body)
  {
  }

  lemma NotIncluded(s: string, part: string)
    requires part != "" && forall i :: 0 <= i <= |s| - |part| ==> s[i] != part[0]
    ensures !Includes(s, part)
  {
    forall i | 0 <= i <= |s| - |part| ensures s[i..][..|part|] != part {
      assert s[i..][..|part|][0] == s[i];
    }
  }

  lemma SpanningGroups()
    ensures var f := FillGroups(Spanning().body, SUBJECTS);
      && f.added == [THREE]
      && f.groups == [Group("Z", [Bullet(ONE)]), Group("A", [Bullet(TWO)]), Group("Features", [Bullet(THREE)])]
  {
    hide Scan, Join, Split, Bullet, PrRefs, ParseCommitSubject, SectionOf, Spanning, Normalize, Includes;
    SpanningIsRead();
    ParsedSubjects();
    Normalized();
    var gs := [Group("Z", [Bullet(ONE)]), Group("A", [Bullet(TWO)])];
    var existing := [Bullet(ONE), Bullet(TWO)];
    assert Existing(gs) == existing by { assert gs[1..] == [Group("A", [Bullet(TWO)])]; }
    NormalizeJoin(existing);
    NormalizedPair(Bullet(ONE), Bullet(TWO));
    IncludesItself("1 2");
    NotIncluded("1 2", "3");
    var start := Filling(gs, PrRefs(Join(existing)), []);
    assert SUBJECTS[..1] == ["fix: 1 2"] && SUBJECTS[..1][..0] == [];
    assert AddAll(SUBJECTS[..1], start, "1 2") == start;
    PushAbsent(gs, "Features", Bullet(THREE));
    assert AddAll(SUBJECTS, start, "1 2") == AddSubject(start, "feat: 3", "1 2");
  }

  lemma NormalizedPair(x: string, y: string)
    requires Normalize(x) == "1" && Normalize(y) == "2"
    ensures NormalizeAll([x, y]) == "1 2"
  {
    hide Normalize;
    assert [x, y][1..] == [y] && [y][1..] == [];
    assert NormalizeAll([y]) == Glue("2", "") == "2";
    assert "1" + " " + "2" == "1 2";
  }

  lemma SpanningSorted(gs: seq<Group>)
    requires gs == [Group("Z", [Bullet(ONE)]), Group("A", [Bullet(TWO)]), Group("Features", [Bullet(THREE)])]
    ensures Existing(Sort(gs, ByName())) == [Bullet(TWO), Bullet(THREE), Bullet(ONE)]
  {
    hide Bullet, StringLeq, Existing, Sort;
    assert StringLeq("A", "Features") && !StringLeq("Z", "A") && !StringLeq("Z", "Features") by { Alphabet(); }
    SortThree(gs[0], gs[1], gs[2]);
    ThreeLines(gs[1], gs[2], gs[0]);
  }

  lemma Alphabet()
    ensures StringLeq("A", "Features") && !StringLeq("Z", "A") && !StringLeq("Z", "Features")
  {
  }

  lemma SortThree(z: Group, a: Group, f: Group)
    requires StringLeq(a.name, f.name) && !StringLeq(z.name, a.name) && !StringLeq(z.name, f.name)
    ensures Sort([z, a, f], ByName()) == [a, f, z]
  {
    hide StringLeq;
    assert [z, a, f][1..] == [a, f] && [a, f][1..] == [f] && [f][1..] == [];
    assert Sort([f], ByName()) == [f];
    assert Sort([a, f], ByName()) == [a, f];
    assert Insert(z, [f], ByName()) == [f, z];
  }

  lemma ThreeLines(x: Group, y: Group, z: Group)
    requires |x.lines| == |y.lines| == |z.lines| == 1
    ensures Existing([x, y, z]) == [x.lines[0], y.lines[0], z.lines[0]]
  {
    assert [x, y, z][1..] == [y, z] && [y, z][1..] == [z] && [z][1..] == [];
    assert Existing([z]) == z.lines;
    assert Existing([y, z]) == y.lines + z.lines;
  }

  lemma NormalizedTriple(x: string, y: string, z: string)
    requires Normalize(x) == "2" && Normalize(y) == "3" && Normalize(z) == "1"
    ensures NormalizeAll([x, y, z]) == "2 3 1"
  {
    hide Normalize;
    assert [x, y, z][1..] == [y, z] && [y, z][1..] == [z] && [z][1..] == [];
    assert NormalizeAll([z]) == Glue("1", "") == "1";
    assert NormalizeAll([y, z]) == Glue("3", "1") == "3 1";
    assert "2" + " " + ("3" + " " + "1") == "2 3 1";
  }

  /** Two subjects without numbers against the section above: the first is found
      only across its two lines, the second is added, and with the groups in
      alphabetical order the first is not found any more. */
  lemma FillTwiceDiffers()
    ensures var d := Join(Whole(Spanning())); var once := Fill(d, "1", SUBJECTS);
      Fill(once, "1", SUBJECTS) != once
  {
    hide Scan, Join, Split, Bullet, PrRefs, ParseCommitSubject, SectionOf, Spanning, Normalize, Includes, FillGroups, NewBody,
      Fill, BodyLine, Sort, Existing, NormalizeAll, WellCut;
    var d := Join(Whole(Spanning()));
    SpanningIsRead();
    SpanningGroups();
    ParsedSubjects();
    Normalized();
    var s := Spanning();
    JoinSplit(d);
    CutSplits(Split(d), "1");
    BodyLines(Split(d), "1");
    FilledLines(d, "1", SUBJECTS);
    NewBodyIsRead(s, "1", SUBJECTS);
    SpanningSorted(FillGroups(s.body, SUBJECTS).groups);
    var now := [Bullet(TWO), Bullet(THREE), Bullet(ONE)];
    NormalizeJoin(now);
    NormalizedTriple(now[0], now[1], now[2]);
    assert TextAfter(d, "1", SUBJECTS) == "2 3 1";
    NotIncluded("2 3 1", "1 2");
    assert SUBJECTS[0] == "fix: 1 2" && SUBJECTS[0] in SUBJECTS;
    assert !StillFound(SUBJECTS, "2 3 1");
    FillTwiceWhenFound(d, "1", SUBJECTS);
  }
}
