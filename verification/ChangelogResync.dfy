/** What completing the changelog leaves as it was, and when completing it a second
    time changes nothing. */
module ChangelogResync {
  import opened Options
  import opened Sorting
  import opened Text
  import opened CommitSubject
  import opened Changelog
  import opened ChangelogFacts

  // ----- cutting a changelog around one section -----

  predicate WellCut(s: Section, version: string) {
    && s.before != [] && SectionMark(version) <= s.before[|s.before| - 1]
    && (forall i :: 0 <= i < |s.before| - 1 ==> !(SectionMark(version) <= s.before[i]))
    && (forall l :: l in s.body ==> !(SECTION <= l) && !(FOOTER <= l))
    && (forall l :: l in s.footer ==> !(SECTION <= l))
    && (s.footer != [] ==> FOOTER <= s.footer[0])
    && (s.after != [] ==> SECTION <= s.after[0])
  }

  function Whole(s: Section): seq<string> { s.before + s.body + s.footer + s.after }

  lemma {:induction false} FirstAtIs(lines: seq<string>, mark: string, i: nat, r: nat)
    requires i <= r <= |lines|
    requires forall j :: i <= j < r ==> !(mark <= lines[j])
    requires r < |lines| ==> mark <= lines[r]
    ensures FirstAt(lines, mark, i) == r
    decreases r - i
  {
    if i < r { FirstAtIs(lines, mark, i + 1, r); }
  }

  /** After a part without the mark comes the first line with it, or the end. */
  lemma FirstAfter(lines: seq<string>, mark: string, part: seq<string>, at: nat)
    requires at + |part| <= |lines| && lines[at..at + |part|] == part
    requires forall l :: l in part ==> !(mark <= l)
    requires at + |part| < |lines| ==> mark <= lines[at + |part|]
    ensures FirstAt(lines, mark, at) == at + |part|
  {
    hide FirstAt;
    forall j | at <= j < at + |part| ensures !(mark <= lines[j]) {
      assert lines[j] == lines[at..at + |part|][j - at] && lines[j] in part;
    }
    FirstAtIs(lines, mark, at, at + |part|);
  }

  lemma FirstIsLast(lines: seq<string>, mark: string, before: seq<string>)
    requires before != [] && before <= lines && mark <= before[|before| - 1]
    requires forall i :: 0 <= i < |before| - 1 ==> !(mark <= before[i])
    ensures FirstAt(lines, mark, 0) == |before| - 1
  {
    hide FirstAt;
    assert forall i :: 0 <= i < |before| ==> lines[i] == before[i];
    FirstAtIs(lines, mark, 0, |before| - 1);
  }

  lemma WholeParts(s: Section)
    ensures var lines, n, end := Whole(s), |s.before|, |s.before| + |s.body| + |s.footer|;
      && |lines| == end + |s.after| && s.before <= lines && lines[..n] == s.before
      && lines[n..end] == s.body + s.footer && lines[end..] == s.after && (s.after != [] ==> lines[end] == s.after[0])
  {
  }

  lemma SectionHalves(body: seq<string>, footer: seq<string>)
    ensures var section := body + footer;
      section[0..|body|] == body && section[..|body|] == body && section[|body|..] == footer
      && (footer != [] ==> section[|body|] == footer[0])
    ensures forall l :: l in body + footer ==> l in body || l in footer
  {
  }

  lemma CutIs(s: Section, version: string)
    requires WellCut(s, version)
    ensures SectionOf(Whole(s), version) == Some(s)
  {
    hide FirstAt, SectionMark, Whole;
    var lines, section := Whole(s), s.body + s.footer;
    WholeParts(s);
    SectionHalves(s.body, s.footer);
    FirstIsLast(lines, SectionMark(version), s.before);
    FirstAfter(lines, SECTION, section, |s.before|);
    FirstAfter(section, FOOTER, s.body, 0);
  }

  /** A changelog as it is documented is cut where it should be: the section starts below
      `## [version] - date` and ends at the next release, its footer is what git-cliff left. */
  lemma DocumentedSection(before: seq<string>, version: string, date: string, body: seq<string>, footer: seq<string>,
                          after: seq<string>)
    requires forall l :: l in before ==> !("## [" + version + "] - " <= l)
    requires forall l :: l in body ==> !("## [" <= l) && !("<!-- generated by git-cliff" <= l)
    requires forall l :: l in footer ==> !("## [" <= l)
    requires footer != [] ==> "<!-- generated by git-cliff" <= footer[0]
    requires after != [] ==> "## [" <= after[0]
    ensures var heading := "## [" + version + "] - " + date;
      SectionOf(before + [heading] + body + footer + after, version) == Some(Section(before + [heading], body, footer, after))
  {
    hide SectionOf;
    var heading := "## [" + version + "] - " + date;
    var s := Section(before + [heading], body, footer, after);
    assert SectionMark(version) <= heading;
    assert forall i :: 0 <= i < |before| ==> s.before[i] == before[i] && before[i] in before;
    assert WellCut(s, version);
    CutIs(s, version);
    assert Whole(s) == before + [heading] + body + footer + after;
  }

  lemma NotIn(lines: seq<string>, mark: string, part: seq<string>, at: nat)
    requires at + |part| <= |lines| && lines[at..at + |part|] == part
    requires forall j :: at <= j < at + |part| ==> !(mark <= lines[j])
    ensures forall l :: l in part ==> !(mark <= l)
  {
    forall l | l in part ensures !(mark <= l) {
      var j :| 0 <= j < |part| && part[j] == l;
      assert lines[at..at + |part|][j] == lines[at + j];
    }
  }

  lemma CutWhole(lines: seq<string>, start: nat, end: nat, at: nat)
    requires start <= end <= |lines| && at <= end - start
    ensures var section := lines[start..end];
      lines[..start] + section[..at] + section[at..] + lines[end..] == lines
  {
    var section := lines[start..end];
    assert section[..at] + section[at..] == section;
    assert lines[..start] + section[..at] + section[at..] == lines[..start] + (section[..at] + section[at..]);
    assert lines[..start] + section + lines[end..] == lines;
  }

  lemma CutSplits(lines: seq<string>, version: string)
    requires SectionOf(lines, version).Some?
    ensures WellCut(SectionOf(lines, version).value, version)
    ensures Whole(SectionOf(lines, version).value) == lines
  {
    hide SectionMark, FirstAt;
    var s := SectionOf(lines, version).value;
    var n := |s.before|;
    var end := FirstAt(lines, SECTION, n);
    var section := lines[n..end];
    var at := FirstAt(section, FOOTER, 0);
    CutWhole(lines, n, end, at);
    NotIn(lines, SECTION, section, n);
    NotIn(section, FOOTER, s.body, 0);
    SectionParts(section, at);
  }

  lemma SectionParts(section: seq<string>, at: nat)
    requires at <= |section|
    ensures forall l :: l in section[..at] ==> l in section
    ensures forall l :: l in section[at..] ==> l in section
  {
  }

  lemma BodyLines(lines: seq<string>, version: string)
    requires AllOneLine(lines) && SectionOf(lines, version).Some?
    ensures forall l :: l in SectionOf(lines, version).value.body ==> BodyLine(l)
    ensures Good(Scan(SectionOf(lines, version).value.body).groups)
  {
    hide SectionOf, Scan, Good;
    CutSplits(lines, version);
    var s := SectionOf(lines, version).value;
    assert forall l :: l in s.body ==> l in Whole(s);
    ScanGood(s.body);
  }

  // ----- one run -----

  /** The groups of a version's section; none without a section. */
  function GroupsOf(changelog: string, version: string): seq<Group> {
    match SectionOf(Split(changelog), version)
    case None => []
    case Some(s) => Scan(s.body).groups
  }

  /** The entries one run adds. */
  function AddedTo(changelog: string, version: string, subjects: seq<string>): seq<Entry> {
    match SectionOf(Split(changelog), version)
    case None => []
    case Some(s) => FillGroups(s.body, subjects).added
  }

  /** The body written by a run that adds something. */
  function NewBody(s: Section, subjects: seq<string>): seq<string> {
    [""] + Chunks(Sort(FillGroups(s.body, subjects).groups, ByName())) + (if s.footer == [] then [""] else [])
  }

  lemma FilledGood(s: Section, subjects: seq<string>)
    requires forall l :: l in s.body ==> BodyLine(l)
    ensures var f := FillGroups(s.body, subjects);
      && f.groups == PushAll(Scan(s.body).groups, f.added)
      && f.prs == PrRefs(Join(Existing(Scan(s.body).groups))) + PrsOf(f.added)
      && (forall e :: e in f.added ==> GoodEntry(e))
      && Good(f.groups)
  {
    hide Scan, AddAll, PrRefs, Normalize, Good, GoodEntry, BodyLine, PushAll, PrsOf;
    var gs := Scan(s.body).groups;
    ScanGood(s.body);
    var existing := Join(Existing(gs));
    AddAllFacts(subjects, Filling(gs, PrRefs(existing), []), Normalize(existing));
    PushAllFacts(gs, FillGroups(s.body, subjects).added);
  }

  lemma NewBodyIsRead(s: Section, version: string, subjects: seq<string>)
    requires WellCut(s, version) && forall l :: l in s.body ==> BodyLine(l)
    ensures var s2 := s.(body := NewBody(s, subjects)); var gs := Sort(FillGroups(s.body, subjects).groups, ByName());
      && WellCut(s2, version)
      && s.before + Rebuilt(FillGroups(s.body, subjects).groups, s.footer) + s.after == Whole(s2)
      && Scan(s2.body).groups == gs
      && Good(gs)
      && forall l :: l in s2.body ==> BodyLine(l)
  {
    hide FillGroups, Scan, Good, BodyLine, Sort, SectionMark, NewBody, Rebuilt, Whole, Chunks;
    FilledGood(s, subjects);
    var fs := FillGroups(s.body, subjects).groups;
    SortGood(fs);
    NewBodyScans(s, subjects);
    BodyLineMarks(NewBody(s, subjects));
    RebuiltIsWhole(s, subjects);
  }

  lemma NewBodyScans(s: Section, subjects: seq<string>)
    requires Good(Sort(FillGroups(s.body, subjects).groups, ByName()))
    ensures Scan(NewBody(s, subjects)).groups == Sort(FillGroups(s.body, subjects).groups, ByName())
    ensures forall l :: l in NewBody(s, subjects) ==> BodyLine(l)
  {
    hide FillGroups, Scan, Good, BodyLine, Sort, Chunks;
    var gs := Sort(FillGroups(s.body, subjects).groups, ByName());
    ScanRebuilt(gs);
    ChunksAreBody(gs);
    BlankIsBody();
    var text := [""] + Chunks(gs);
    if s.footer == [] {
      ScanSkips(text);
      assert NewBody(s, subjects) == text + [""];
    } else {
      assert NewBody(s, subjects) == text;
    }
  }

  lemma RebuiltIsWhole(s: Section, subjects: seq<string>)
    ensures s.before + Rebuilt(FillGroups(s.body, subjects).groups, s.footer) + s.after == Whole(s.(body := NewBody(s, subjects)))
  {
    hide FillGroups, Sort, Chunks;
  }

  lemma BodyLineMarks(body: seq<string>)
    requires forall l :: l in body ==> BodyLine(l)
    ensures forall l :: l in body ==> !(SECTION <= l) && !(FOOTER <= l)
  {
  }

  /** The lines of the completed changelog, and its section. */
  lemma FilledLines(changelog: string, version: string, subjects: seq<string>)
    requires SectionOf(Split(changelog), version).Some? && AddedTo(changelog, version, subjects) != []
    ensures var s := SectionOf(Split(changelog), version).value;
      && Split(Fill(changelog, version, subjects)) == Whole(s.(body := NewBody(s, subjects)))
      && SectionOf(Split(Fill(changelog, version, subjects)), version) == Some(s.(body := NewBody(s, subjects)))
  {
    hide Scan, FillGroups, Split, Join, SectionOf, WellCut, BodyLine, NewBody, Rebuilt, Good;
    var lines := Split(changelog);
    JoinSplit(changelog);
    CutSplits(lines, version);
    BodyLines(lines, version);
    var s := SectionOf(lines, version).value;
    var s2 := s.(body := NewBody(s, subjects));
    NewBodyIsRead(s, version, subjects);
    CutIs(s2, version);
    WholeIsOneLine(s, s2.body);
    CutNotEmpty(s, version);
    SplitJoin(Whole(s2));
  }

  lemma CutNotEmpty(s: Section, version: string)
    requires WellCut(s, version)
    ensures s.before != []
  {
  }

  lemma WholeIsOneLine(s: Section, body: seq<string>)
    requires AllOneLine(Whole(s)) && forall l :: l in body ==> BodyLine(l)
    ensures AllOneLine(Whole(s.(body := body)))
  {
    var t := Whole(s.(body := body));
    forall l | l in t ensures OneLine(l) {
      if l !in body { assert l in Whole(s); }
    }
  }

  /** One run changes nothing outside the version's section, keeps the section's
      footer, and turns the lines under each heading into the same lines, in the
      same order, followed by the bullets added to that group. A group is there
      exactly when it was before or gained a bullet; the rewritten section lists
      groups in alphabetical order. */
  lemma FillKeepsEveryLine(changelog: string, version: string, subjects: seq<string>, name: string)
    requires SectionOf(Split(changelog), version).Some?
    ensures var r := Fill(changelog, version, subjects); var added := AddedTo(changelog, version, subjects);
      && SectionOf(Split(r), version).Some?
      && (var s, t := SectionOf(Split(changelog), version).value, SectionOf(Split(r), version).value;
          t.before == s.before && t.footer == s.footer && t.after == s.after)
      && LinesOf(GroupsOf(r, version), name) == LinesOf(GroupsOf(changelog, version), name) + BulletsFor(added, name)
      && HasGroup(GroupsOf(r, version), name)
           == (HasGroup(GroupsOf(changelog, version), name) || AddsTo(added, name))
      && (added != [] ==> Sorted(GroupsOf(r, version), ByName()))
  {
    hide Scan, Split, Join, SectionOf, WellCut, BodyLine, NewBody, Rebuilt, Good, LinesOf, HasGroup;
    var added := AddedTo(changelog, version, subjects);
    JoinSplit(changelog);
    if added != [] {
      FilledLines(changelog, version, subjects);
      NewGroups(changelog, version, subjects, name);
    }
  }

  lemma NewGroups(changelog: string, version: string, subjects: seq<string>, name: string)
    requires SectionOf(Split(changelog), version).Some?
    ensures var s := SectionOf(Split(changelog), version).value; var added := AddedTo(changelog, version, subjects);
      var gs := Scan(NewBody(s, subjects)).groups; var was := GroupsOf(changelog, version);
      && LinesOf(gs, name) == LinesOf(was, name) + BulletsFor(added, name)
      && (HasGroup(gs, name) <==> HasGroup(was, name) || AddsTo(added, name))
      && Sorted(gs, ByName())
  {
    hide Scan, Split, Join, SectionOf, WellCut, BodyLine, NewBody, Rebuilt, FillGroups, LinesOf, BulletsFor, Sort, PushAll, GoodGroup;
    var lines := Split(changelog);
    JoinSplit(changelog);
    CutSplits(lines, version);
    BodyLines(lines, version);
    var s := SectionOf(lines, version).value;
    NewBodyIsRead(s, version, subjects);
    FilledGood(s, subjects);
    var fs := FillGroups(s.body, subjects).groups;
    PushAllLines(Scan(s.body).groups, FillGroups(s.body, subjects).added, name);
    SortLines(fs, name);
    MultisetGroups(Sort(fs, ByName()), fs);
    ByNameIsPreorder();
    SortSorts(fs, ByName());
  }

  // ----- what a subject's entry finds -----

  predicate AllSeen(subjects: seq<string>, prs: set<nat>, text: string) {
    forall s :: s in subjects && ParseCommitSubject(s).Some? ==> Seen(ParseCommitSubject(s).value, prs, text)
  }

  lemma {:induction false} NothingToAdd(subjects: seq<string>, start: Filling, text: string)
    requires start.added == []
    ensures AllSeen(subjects, start.prs, text) <==> AddAll(subjects, start, text).added == []
    ensures AllSeen(subjects, start.prs, text) ==> AddAll(subjects, start, text) == start
  {
    hide ParseCommitSubject, Seen, Bullet, Push;
    if subjects != [] {
      var n := |subjects| - 1;
      assert subjects == subjects[..n] + [subjects[n]];
      NothingToAdd(subjects[..n], start, text);
      assert AllSeen(subjects, start.prs, text) <==>
        AllSeen(subjects[..n], start.prs, text) && AllSeen([subjects[n]], start.prs, text);
    }
  }

  /** After a run, no subject with a number is missing from the numbers seen, and
      one without was found in the old text or has its bullet. */
  lemma {:induction false} AfterAdding(subjects: seq<string>, start: Filling, text: string)
    requires start.added == []
    ensures var f := AddAll(subjects, start, text);
      forall s :: s in subjects && ParseCommitSubject(s).Some? ==>
        var e := ParseCommitSubject(s).value;
        if HasPr(e) then e.pr.value in f.prs else Includes(text, Normalize(e.text)) || e in f.added
  {
    hide ParseCommitSubject, Bullet, Push, Includes, Normalize;
    if subjects != [] {
      var n := |subjects| - 1;
      assert subjects == subjects[..n] + [subjects[n]];
      AfterAdding(subjects[..n], start, text);
      var g, f := AddAll(subjects[..n], start, text), AddAll(subjects, start, text);
      assert g.prs <= f.prs && forall e :: e in g.added ==> e in f.added;
      forall s | s in subjects && ParseCommitSubject(s).Some?
        ensures var e := ParseCommitSubject(s).value;
          if HasPr(e) then e.pr.value in f.prs else Includes(text, Normalize(e.text)) || e in f.added
      {
        if s !in subjects[..n] { assert s == subjects[n]; }
      }
    }
  }

  lemma RefsGrow(a: seq<string>, b: seq<string>)
    requires multiset(a) <= multiset(b)
    ensures RefsOf(a) <= RefsOf(b)
  {
    forall n | n in RefsOf(a) ensures n in RefsOf(b) {
      RefsOfFrom(a, n);
      var l :| l in a && n in PrRefs(l);
      assert l in multiset(b);
      RefsOfMember(b, l);
    }
  }

  lemma BulletHoldsPr(e: Entry)
    requires HasPr(e)
    ensures e.pr.value in PrRefs(Bullet(e))
  {
    hide Decimal, PrRefs;
    var d := Decimal(e.pr.value);
    var rest := "](" + REPO + "/pull/" + d + "))";
    assert Bullet(e) == "- " + e.text + " ([" + "#" + d + rest;
    RefReadBack("- " + e.text + " ([", e.pr.value, rest);
  }

  lemma BulletHoldsText(e: Entry)
    requires !HasPr(e)
    ensures Normalize(Bullet(e)) == Normalize(e.text)
  {
    var b := Bullet(e);
    assert b[1..][1..] == e.text && b[0] == '-' && b[1..][0] == ' ';
    assert Normalize(b) == Normalize(b[1..]);
  }

  /** Everything the second run sees as present by number, and the text of
      whatever the first run added without one. */
  lemma SecondRunSees(gs: seq<Group>, added: seq<Entry>)
    requires Good(gs) && forall e :: e in added ==> GoodEntry(e)
    ensures var now := Existing(Sort(PushAll(gs, added), ByName()));
      && PrRefs(Join(Existing(gs))) + PrsOf(added) <= PrRefs(Join(now))
      && forall e :: e in added && !HasPr(e) ==> Includes(Normalize(Join(now)), Normalize(e.text))
  {
    hide Good, GoodEntry, PrRefs, Normalize, Bullet, Join, PushAll, Includes;
    var fs := PushAll(gs, added);
    var now := Existing(Sort(fs, ByName()));
    PushAllFacts(gs, added);
    SortExisting(fs);
    RefsOfJoin(Existing(gs));
    RefsOfJoin(now);
    RefsGrow(Existing(gs), now);
    NormalizeJoin(now);
    forall e | e in added ensures Bullet(e) in now {
      assert Bullet(e) in multiset(Existing(fs));
      assert Bullet(e) in multiset(now);
    }
    forall n | n in PrsOf(added) ensures n in RefsOf(now) {
      var e :| e in added && HasPr(e) && e.pr.value == n;
      BulletHoldsPr(e);
      RefsOfMember(now, Bullet(e));
    }
    forall e | e in added && !HasPr(e) ensures Includes(NormalizeAll(now), Normalize(e.text)) {
      BulletHoldsText(e);
      IncludesItself(Normalize(e.text));
      NormalizeMember(now, Bullet(e), Normalize(e.text));
    }
  }

  lemma IncludesItself(s: string)
    ensures Includes(s, s)
  {
    IncludedIn("", s, "");
    assert "" + s + "" == s;
  }

  // ----- twice -----

  /** The text the second run compares with: every entry line, regrouped. */
  function TextAfter(changelog: string, version: string, subjects: seq<string>): string {
    Normalize(Join(Existing(GroupsOf(Fill(changelog, version, subjects), version))))
  }

  /** Entries without a number are found again. */
  predicate StillFound(subjects: seq<string>, text: string) {
    forall s :: s in subjects && ParseCommitSubject(s).Some? && !HasPr(ParseCommitSubject(s).value) ==>
      Includes(text, Normalize(ParseCommitSubject(s).value.text))
  }

  lemma SecondRunAdds(changelog: string, version: string, subjects: seq<string>)
    requires SectionOf(Split(changelog), version).Some? && AddedTo(changelog, version, subjects) != []
    ensures AddedTo(Fill(changelog, version, subjects), version, subjects) == []
       <==> StillFound(subjects, TextAfter(changelog, version, subjects))
  {
    hide Scan, Split, Join, SectionOf, WellCut, BodyLine, NewBody, Rebuilt, AddAll, PrRefs, Normalize, ParseCommitSubject,
      PushAll, GoodEntry, Good, Existing, PrsOf, Includes, Sort, StillFound, AllSeen, Fill;
    var lines := Split(changelog);
    JoinSplit(changelog);
    CutSplits(lines, version);
    BodyLines(lines, version);
    FilledLines(changelog, version, subjects);
    var s := SectionOf(lines, version).value;
    NewBodyIsRead(s, version, subjects);
    FilledGood(s, subjects);
    var gs, f := Scan(s.body).groups, FillGroups(s.body, subjects);
    var now := Join(Existing(Sort(f.groups, ByName())));
    SecondRunSees(gs, f.added);
    AfterAdding(subjects, Filling(gs, PrRefs(Join(Existing(gs))), []), Normalize(Join(Existing(gs))));
    SeenIffFound(subjects, PrRefs(now), f.prs, Normalize(now));
    NothingToAdd(subjects, Filling(Sort(f.groups, ByName()), PrRefs(now), []), Normalize(now));
  }

  lemma SeenIffFound(subjects: seq<string>, prs: set<nat>, known: set<nat>, text: string)
    requires known <= prs
    requires forall s :: s in subjects && ParseCommitSubject(s).Some? && HasPr(ParseCommitSubject(s).value) ==>
      ParseCommitSubject(s).value.pr.value in known
    ensures AllSeen(subjects, prs, text) <==> StillFound(subjects, text)
  {
    hide ParseCommitSubject, Includes, Normalize, HasPr;
  }

  lemma {:induction false} ExistingSize(changelog: string, version: string, subjects: seq<string>)
    requires SectionOf(Split(changelog), version).Some? && AddedTo(changelog, version, subjects) != []
    ensures |Existing(GroupsOf(Fill(changelog, version, subjects), version))|
         == |Existing(GroupsOf(changelog, version))| + |AddedTo(changelog, version, subjects)|
  {
    hide Scan, Split, Join, SectionOf, WellCut, BodyLine, NewBody, Rebuilt, FillGroups, PushAll, GoodEntry, Good, Existing, Sort, Fill;
    var lines := Split(changelog);
    JoinSplit(changelog);
    CutSplits(lines, version);
    BodyLines(lines, version);
    FilledLines(changelog, version, subjects);
    var s := SectionOf(lines, version).value;
    NewBodyIsRead(s, version, subjects);
    FilledGood(s, subjects);
    var f := FillGroups(s.body, subjects);
    PushAllFacts(Scan(s.body).groups, f.added);
    SortExisting(f.groups);
    assert |multiset(Existing(Sort(f.groups, ByName())))| == |multiset(Existing(f.groups))|;
  }

  /** A run leaves the changelog as it is exactly when it adds nothing. */
  lemma FillChangesIffAdds(changelog: string, version: string, subjects: seq<string>)
    ensures Fill(changelog, version, subjects) == changelog <==> AddedTo(changelog, version, subjects) == []
  {
    hide Scan, Split, Join, SectionOf, FillGroups, Rebuilt, Existing;
    JoinSplit(changelog);
    if AddedTo(changelog, version, subjects) != [] {
      ExistingSize(changelog, version, subjects);
    }
  }

  /** Running twice equals running once exactly when the first run had nothing to
      add or the second finds every entry without a pull request. */
  lemma FillTwiceWhenFound(changelog: string, version: string, subjects: seq<string>)
    ensures var once := Fill(changelog, version, subjects);
      && (Fill(once, version, subjects) == once)
           == (AddedTo(changelog, version, subjects) == [] || StillFound(subjects, TextAfter(changelog, version, subjects)))
  {
    hide Fill, AddedTo, StillFound;
    var once := Fill(changelog, version, subjects);
    FillChangesIffAdds(changelog, version, subjects);
    FillChangesIffAdds(once, version, subjects);
    if AddedTo(changelog, version, subjects) != [] {
      AddsOnlyToSection(changelog, version, subjects);
      SecondRunAdds(changelog, version, subjects);
    }
  }

  lemma AddsOnlyToSection(changelog: string, version: string, subjects: seq<string>)
    requires AddedTo(changelog, version, subjects) != []
    ensures SectionOf(Split(changelog), version).Some?
  {
  }

  /** When every subject carries a pull request number, completing is idempotent. */
  lemma FillIdempotentWithPrs(changelog: string, version: string, subjects: seq<string>)
    requires forall s :: s in subjects && ParseCommitSubject(s).Some? ==> HasPr(ParseCommitSubject(s).value)
    ensures var once := Fill(changelog, version, subjects); Fill(once, version, subjects) == once
  {
    hide Fill, AddedTo, ParseCommitSubject, HasPr;
    FillTwiceWhenFound(changelog, version, subjects);
  }
}
