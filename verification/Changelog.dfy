/** Completing one version's section of CHANGELOG.md with the commits it lacks. */
module Changelog {
  import opened Options
  import opened Sorting
  import opened Text
  import opened CommitSubject

  const FOOTER := "<!-- generated by git-cliff"
  const SECTION := "## ["

  /** A map entry: the lines under one group heading. */
  datatype Group = Group(name: string, lines: seq<string>)

  function SectionMark(version: string): string { SECTION + version + "] - " }

  // ----- a map from names to lines that remembers insertion order -----

  predicate HasGroup(gs: seq<Group>, name: string) { exists g :: g in gs && g.name == name }

  function Touch(gs: seq<Group>, name: string): seq<Group> {
    if HasGroup(gs, name) then gs else gs + [Group(name, [])]
  }

  /** Append a line to a group, which is added at the end when missing. */
  function Push(gs: seq<Group>, name: string, line: string): seq<Group> {
    if gs == [] then [Group(name, [line])]
    else if gs[0].name == name then [Group(name, gs[0].lines + [line])] + gs[1..]
    else [gs[0]] + Push(gs[1..], name, line)
  }

  function Existing(gs: seq<Group>): seq<string> {
    if gs == [] then [] else gs[0].lines + Existing(gs[1..])
  }

  // ----- reading the section -----

  /** ^### (.+)$ */
  function HeadingName(line: string): Option<string> {
    if "### " <= line && |line| > 4 && Lacks(line[4..], IsLineEnd) then Some(line[4..]) else None
  }

  datatype Scanned = Scanned(groups: seq<Group>, current: Option<string>)

  function ScanLine(s: Scanned, line: string): Scanned {
    match HeadingName(line)
    case Some(name) => Scanned(Touch(s.groups, name), Some(name))
    case None =>
      if s.current.Some? && !Blank(line) then Scanned(Push(s.groups, s.current.value, line), s.current) else s
  }

  function Scan(body: seq<string>): Scanned {
    if body == [] then Scanned([], None) else ScanLine(Scan(body[..|body| - 1]), body[|body| - 1])
  }

  /** The first line from i on that starts with mark, or the end. */
  function FirstAt(lines: seq<string>, mark: string, i: nat): (r: nat)
    requires i <= |lines|
    ensures i <= r <= |lines|
    ensures r < |lines| ==> mark <= lines[r]
    ensures forall j :: i <= j < r ==> !(mark <= lines[j])
    decreases |lines| - i
  {
    if i == |lines| || mark <= lines[i] then i else FirstAt(lines, mark, i + 1)
  }

  /** Where a version's section is and what it holds. */
  datatype Section = Section(before: seq<string>, body: seq<string>, footer: seq<string>, after: seq<string>)

  function SectionOf(lines: seq<string>, version: string): Option<Section> {
    var start := FirstAt(lines, SectionMark(version), 0);
    if start == |lines| then None else
      var end := FirstAt(lines, SECTION, start + 1);
      var section := lines[start + 1..end];
      var footerAt := FirstAt(section, FOOTER, 0);
      Some(Section(lines[..start + 1], section[..footerAt], section[footerAt..], lines[end..]))
  }

  // ----- adding what is missing -----

  predicate Seen(e: Entry, prs: set<nat>, text: string) {
    if HasPr(e) then e.pr.value in prs else Includes(text, Normalize(e.text))
  }

  datatype Filling = Filling(groups: seq<Group>, prs: set<nat>, added: seq<Entry>)

  function AddSubject(f: Filling, subject: string, seenText: string): Filling {
    match ParseCommitSubject(subject)
    case None => f
    case Some(e) =>
      if Seen(e, f.prs, seenText) then f else
        Filling(Push(f.groups, e.group, Bullet(e)), if HasPr(e) then f.prs + {e.pr.value} else f.prs, f.added + [e])
  }

  function AddAll(subjects: seq<string>, start: Filling, seenText: string): Filling {
    if subjects == [] then start
    else AddSubject(AddAll(subjects[..|subjects| - 1], start, seenText), subjects[|subjects| - 1], seenText)
  }

  function FillGroups(body: seq<string>, subjects: seq<string>): Filling {
    var groups := Scan(body).groups;
    var existing := Join(Existing(groups));
    AddAll(subjects, Filling(groups, PrRefs(existing), []), Normalize(existing))
  }

  // ----- writing the section -----

  function ByName(): (Group, Group) -> bool { (a: Group, b: Group) => StringLeq(a.name, b.name) }

  function Heading(name: string): string { "### " + name }

  function Chunk(g: Group): seq<string> { [Heading(g.name), ""] + g.lines + [""] }

  function Chunks(gs: seq<Group>): seq<string> {
    if gs == [] then [] else Chunks(gs[..|gs| - 1]) + Chunk(gs[|gs| - 1])
  }

  function Rebuilt(gs: seq<Group>, footer: seq<string>): seq<string> {
    [""] + Chunks(Sort(gs, ByName())) + (if footer != [] then footer else [""])
  }

  function FillLines(lines: seq<string>, version: string, subjects: seq<string>): seq<string> {
    match SectionOf(lines, version)
    case None => lines
    case Some(s) =>
      var f := FillGroups(s.body, subjects);
      if f.added == [] then lines else s.before + Rebuilt(f.groups, s.footer) + s.after
  }

  function Fill(changelog: string, version: string, subjects: seq<string>): string {
    Join(FillLines(Split(changelog), version, subjects))
  }

  // ----- the loops -----

  lemma {:induction false} PushAbsent(gs: seq<Group>, name: string, line: string)
    requires !HasGroup(gs, name)
    ensures Push(gs, name, line) == gs + [Group(name, [line])]
    ensures Push(gs + [Group(name, [])], name, line) == gs + [Group(name, [line])]
  {
    if gs == [] {
      var one := [Group(name, [])];
      assert gs + one == one && one[1..] == [] && one[0].lines + [line] == [line];
    } else {
      assert gs[0] in gs && forall g :: g in gs[1..] ==> g in gs;
      assert (gs + [Group(name, [])])[1..] == gs[1..] + [Group(name, [])];
      PushAbsent(gs[1..], name, line);
    }
  }

  method ScanGroups(body: seq<string>) returns (groups: seq<Group>)
    ensures groups == Scan(body).groups
  {
    groups := [];
    var current: Option<string> := None;
    for i := 0 to |body|
      invariant Scanned(groups, current) == Scan(body[..i])
    {
      assert body[..i + 1][..i] == body[..i];
      var heading := HeadingName(body[i]);
      if heading.Some? {
        current := heading;
        groups := Touch(groups, heading.value);
      } else if current.Some? && !Blank(body[i]) {
        groups := Push(groups, current.value, body[i]);
      }
    }
    assert body[..|body|] == body;
  }

  method AddSubjects(start: seq<Group>, prs: set<nat>, seenText: string, subjects: seq<string>)
      returns (groups: seq<Group>, seenPrs: set<nat>, added: nat)
    ensures var f := AddAll(subjects, Filling(start, prs, []), seenText);
      groups == f.groups && seenPrs == f.prs && added == |f.added|
  {
    hide Normalize, ParseCommitSubject, Bullet, Push;
    groups, seenPrs, added := start, prs, 0;
    for i := 0 to |subjects|
      invariant var f := AddAll(subjects[..i], Filling(start, prs, []), seenText);
        f.groups == groups && f.prs == seenPrs && |f.added| == added
    {
      assert subjects[..i + 1][..i] == subjects[..i];
      var entry := ParseCommitSubject(subjects[i]);
      if entry.None? || Seen(entry.value, seenPrs, seenText) {
        continue;
      }
      if !HasGroup(groups, entry.value.group) {
        PushAbsent(groups, entry.value.group, Bullet(entry.value));
        groups := groups + [Group(entry.value.group, [])];
      }
      groups := Push(groups, entry.value.group, Bullet(entry.value));
      if HasPr(entry.value) {
        seenPrs := seenPrs + {entry.value.pr.value};
      }
      added := added + 1;
    }
    assert subjects[..|subjects|] == subjects;
  }

  method Rebuild(groups: seq<Group>, footer: seq<string>) returns (rebuilt: seq<string>)
    ensures rebuilt == Rebuilt(groups, footer)
  {
    rebuilt := [""];
    var sorted := Sort(groups, ByName());
    for i := 0 to |sorted|
      invariant rebuilt == [""] + Chunks(sorted[..i])
    {
      assert sorted[..i + 1][..i] == sorted[..i];
      rebuilt := rebuilt + [Heading(sorted[i].name), ""] + sorted[i].lines + [""];
    }
    assert sorted[..|sorted|] == sorted;
    rebuilt := rebuilt + (if |footer| > 0 then footer else [""]);
  }

  method FillChangelogSection(changelog: string, version: string, subjects: seq<string>) returns (r: string)
    ensures r == Fill(changelog, version, subjects)
  {
    hide Scan, AddAll, PrRefs, Normalize, Existing, Rebuilt, Join, Split;
    JoinSplit(changelog);
    var lines := Split(changelog);
    var start := FirstAt(lines, SectionMark(version), 0);
    if start == |lines| {
      return changelog;
    }
    var end := FirstAt(lines, SECTION, start + 1);
    var section := lines[start + 1..end];
    var footerAt := FirstAt(section, FOOTER, 0);
    var body, footer := section[..footerAt], section[footerAt..];
    var groups := ScanGroups(body);
    var existing := Join(Existing(groups));
    var seenPrs, added := PrRefs(existing), 0;
    groups, seenPrs, added := AddSubjects(groups, seenPrs, Normalize(existing), subjects);
    if added == 0 {
      return changelog;
    }
    var rebuilt := Rebuild(groups, footer);
    r := Join(lines[..start + 1] + rebuilt + lines[end..]);
  }
}
