/** Squash-merge subjects such as `feat(landing): add x (#12)` read as changelog
    entries, and entries written as changelog bullets. */
module CommitSubject {
  import opened Options
  import opened Text

  const REPO := "https://github.com/UmaiTech/aura-llm-gateway"

  datatype Entry = Entry(group: string, text: string, pr: Option<nat>)

  predicate Skipped(subject: string) {
    || "chore(release)" <= subject || "chore(deps)" <= subject || "chore(pr)" <= subject || "chore(pull)" <= subject
    || "chore: release " <= subject || "chore: sync " <= subject
  }

  function GroupOf(kind: string): Option<string> {
    if "feat" <= kind then Some("Features")
    else if "fix" <= kind then Some("Bug Fixes")
    else if "doc" <= kind then Some("Documentation")
    else if "perf" <= kind then Some("Performance")
    else if "refactor" <= kind then Some("Refactor")
    else if "style" <= kind then Some("Styling")
    else if "test" <= kind then Some("Testing")
    else if "chore" <= kind || "ci" <= kind then Some("Miscellaneous Tasks")
    else if "revert" <= kind then Some("Revert")
    else None
  }

  // ----- reading -----

  function WordRun(s: string): (r: string)
    ensures r <= s
  {
    if s != "" && IsWord(s[0]) then [s[0]] + WordRun(s[1..]) else ""
  }

  /** What follows the first closing parenthesis, if there is one. */
  function AfterParen(s: string): Option<string> {
    if s == "" then None else if s[0] == ')' then Some(s[1..]) else AfterParen(s[1..])
  }

  /** An optional `(scope)`: without a closing parenthesis nothing is skipped. */
  function SkipScope(s: string): string {
    if s == "" || s[0] != '(' then s else
      match AfterParen(s[1..])
      case Some(rest) => rest
      case None => s
  }

  function SkipBang(s: string): string { if s != "" && s[0] == '!' then s[1..] else s }

  datatype Matched = Matched(kind: string, rest: string)

  /** ^(\w+)(?:\([^)]*\))?!?: (.+)$ */
  function MatchSubject(subject: string): Option<Matched> {
    var kind := WordRun(subject);
    var tail := SkipBang(SkipScope(subject[|kind|..]));
    if kind != "" && ": " <= tail && |tail| > 2 && Lacks(tail[2..], IsLineEnd) then Some(Matched(kind, tail[2..])) else None
  }

  function DigitsAtEnd(s: string): (k: nat)
    ensures k <= |s| && forall i :: |s| - k <= i < |s| ==> IsDigit(s[i])
  {
    if s != "" && IsDigit(s[|s| - 1]) then DigitsAtEnd(s[..|s| - 1]) + 1 else 0
  }

  datatype Suffix = Suffix(text: string, pr: Option<nat>)

  /** \(#(\d+)\)$ */
  function TakePr(text: string): Suffix {
    if text == "" || text[|text| - 1] != ')' then Suffix(text, None) else
      var inner := text[..|text| - 1];
      var k := DigitsAtEnd(inner);
      var front := inner[..|inner| - k];
      if k > 0 && |front| >= 2 && front[|front| - 2..] == "(#"
      then Suffix(Trim(front[..|front| - 2]), Some(Value(inner[|inner| - k..])))
      else Suffix(text, None)
  }

  function Capitalise(s: string): string { if s == "" then "" else [Upper(s[0])] + s[1..] }

  function ParseCommitSubject(subject: string): Option<Entry> {
    if Skipped(subject) then None else
      match MatchSubject(subject)
      case None => None
      case Some(m) =>
        match GroupOf(m.kind)
        case None => None
        case Some(group) => var t := TakePr(Trim(m.rest)); Some(Entry(group, Capitalise(t.text), t.pr))
  }

  /** A missing number and the number 0 both count as no pull request. */
  predicate HasPr(e: Entry) { e.pr.Some? && e.pr.value != 0 }

  function Bullet(e: Entry): string {
    if HasPr(e)
    then "- " + e.text + " ([#" + Decimal(e.pr.value) + "](" + REPO + "/pull/" + Decimal(e.pr.value) + "))"
    else "- " + e.text
  }

  // ----- what reading keeps -----

  lemma TakePrMembers(text: string)
    ensures forall c :: c in TakePr(text).text ==> c in text
  {
  }

  lemma CapitaliseOneLine(s: string)
    requires OneLine(s)
    ensures OneLine(Capitalise(s))
  {
    if s != "" {
      assert s[0] in s && forall c :: c in s[1..] ==> c in s;
      assert Upper(s[0]) != '\n';
    }
  }

  /** Entries are single lines of one of nine groups. */
  lemma ParsedIsOneLine(subject: string)
    requires ParseCommitSubject(subject).Some?
    ensures var e := ParseCommitSubject(subject).value;
      && OneLine(e.text)
      && e.group in {"Features", "Bug Fixes", "Documentation", "Performance", "Refactor", "Styling", "Testing",
                     "Miscellaneous Tasks", "Revert"}
  {
    hide TakePr, Trim, WordRun, Skipped;
    var m := MatchSubject(subject).value;
    var t := TakePr(Trim(m.rest));
    TakePrMembers(Trim(m.rest));
    assert IsLineEnd('\n');
    assert forall c :: c in Trim(m.rest) ==> c in m.rest;
    assert OneLine(t.text);
    CapitaliseOneLine(t.text);
  }

  // ----- subjects of the documented form are read back -----

  lemma {:induction false} WordRunEnds(kind: string, rest: string)
    requires forall c :: c in kind ==> IsWord(c)
    requires rest == "" || !IsWord(rest[0])
    ensures WordRun(kind + rest) == kind
  {
    if kind == "" {
      assert "" + rest == rest;
    } else {
      assert kind[0] in kind && (kind + rest)[1..] == kind[1..] + rest;
      WordRunEnds(kind[1..], rest);
    }
  }

  lemma {:induction false} AfterParenFinds(scope: string, rest: string)
    requires ')' !in scope
    ensures AfterParen(scope + ")" + rest) == Some(rest)
  {
    var s := scope + ")" + rest;
    if scope == "" {
      assert s[1..] == rest;
    } else {
      assert s[1..] == scope[1..] + ")" + rest;
      AfterParenFinds(scope[1..], rest);
    }
  }

  lemma {:induction false} DigitsAtEndFinds(front: string, digits: string)
    requires forall c :: c in digits ==> IsDigit(c)
    requires front == "" || !IsDigit(front[|front| - 1])
    ensures DigitsAtEnd(front + digits) == |digits|
  {
    if digits == "" {
      assert front + "" == front;
    } else {
      var n := |digits| - 1;
      assert digits[n] in digits && (front + digits)[..|front| + n] == front + digits[..n];
      DigitsAtEndFinds(front, digits[..n]);
    }
  }

  /** A number at the end is taken whatever stands before it. */
  lemma TakePrReads(front: string, digits: string)
    requires digits != "" && forall c :: c in digits ==> IsDigit(c)
    ensures TakePr(front + "(#" + digits + ")") == Suffix(Trim(front), Some(Value(digits)))
  {
    hide DigitsAtEnd, Value, Trim;
    var s, mark := front + "(#" + digits + ")", front + "(#";
    var inner := mark + digits;
    assert s[..|s| - 1] == inner && mark[|mark| - 1] == '#';
    DigitsAtEndFinds(mark, digits);
    assert inner[..|inner| - |digits|] == mark && inner[|inner| - |digits|..] == digits;
    assert mark[|mark| - 2..] == "(#" && mark[..|mark| - 2] == front;
  }

  lemma TakePrFinds(text: string, n: nat)
    requires Trimmed(text)
    ensures TakePr(WithPr(text, n)) == Suffix(text, Some(n))
  {
    hide Decimal, DigitsAtEnd, Value, TrimStart, TrimEnd, TakePr;
    assert WithPr(text, n) == (text + " ") + "(#" + Decimal(n) + ")";
    ValueOfDecimal(n);
    TakePrReads(text + " ", Decimal(n));
    TrimDropsLastSpace(text);
  }

  lemma TrimDropsLastSpace(text: string)
    requires Trimmed(text)
    ensures Trim(text + " ") == text
  {
    var s := text + " ";
    if text != "" {
      assert TrimStart(s) == s;
      assert s[..|s| - 1] == text;
      assert TrimEnd(s) == TrimEnd(text) == text;
    } else {
      assert s == " " && s[1..] == "";
      assert TrimStart(s) == TrimStart("") == "";
    }
  }

  function Subject(kind: string, scope: Option<string>, breaking: bool, text: string): string {
    kind + (if scope.Some? then "(" + scope.value + ")" else "") + (if breaking then "!" else "") + ": " + text
  }

  function WithPr(text: string, pr: nat): string { text + " (#" + Decimal(pr) + ")" }

  lemma SkipScopeFinds(scope: Option<string>, tail: string)
    requires scope.Some? ==> ')' !in scope.value
    requires tail != "" && tail[0] != '('
    ensures SkipScope((if scope.Some? then "(" + scope.value + ")" else "") + tail) == tail
  {
    hide AfterParen;
    if scope.Some? {
      var after := "(" + scope.value + ")" + tail;
      assert after[1..] == scope.value + ")" + tail;
      AfterParenFinds(scope.value, tail);
    } else {
      assert "" + tail == tail;
    }
  }

  lemma WithPrOnOneLine(text: string, pr: nat)
    requires Lacks(text, IsLineEnd)
    ensures Lacks(WithPr(text, pr), IsLineEnd)
  {
    forall c | c in WithPr(text, pr) ensures !IsLineEnd(c) {
      assert c in text || c in " (#" || IsDigit(c) || c == ')';
    }
  }

  lemma SubjectMatches(kind: string, scope: Option<string>, breaking: bool, text: string)
    requires kind != "" && forall c :: c in kind ==> IsWord(c)
    requires scope.Some? ==> ')' !in scope.value
    requires text != "" && Lacks(text, IsLineEnd)
    ensures MatchSubject(Subject(kind, scope, breaking, text)) == Some(Matched(kind, text))
  {
    hide WordRun, SkipScope, IsLineEnd, Lacks;
    var tail := (if breaking then "!" else "") + ": " + text;
    var after := (if scope.Some? then "(" + scope.value + ")" else "") + tail;
    assert Subject(kind, scope, breaking, text) == kind + after;
    assert !IsWord(after[0]);
    WordRunEnds(kind, after);
    assert (kind + after)[|kind|..] == after;
    SkipScopeFinds(scope, tail);
    assert SkipBang(tail) == ": " + text;
    assert (": " + text)[2..] == text;
  }

  /** Any subject `kind(scope)!: text (#n)` of a known kind that is not release
      bookkeeping yields its group, its capitalised text and its number. */
  lemma SubjectReadsBack(kind: string, scope: Option<string>, breaking: bool, text: string, pr: nat)
    requires kind != "" && (forall c :: c in kind ==> IsWord(c)) && GroupOf(kind).Some?
    requires scope.Some? ==> ')' !in scope.value
    requires text != "" && Trimmed(text) && Lacks(text, IsLineEnd)
    requires !Skipped(Subject(kind, scope, breaking, WithPr(text, pr)))
    ensures ParseCommitSubject(Subject(kind, scope, breaking, WithPr(text, pr)))
         == Some(Entry(GroupOf(kind).value, Capitalise(text), Some(pr)))
  {
    hide Subject, MatchSubject, TakePr, Skipped, GroupOf, Decimal, TrimStart, TrimEnd, Trim, Lacks;
    WithPrOnOneLine(text, pr);
    SubjectMatches(kind, scope, breaking, WithPr(text, pr));
    TrimmedStays(WithPr(text, pr));
    TakePrFinds(text, pr);
  }

  ghost predicate EndsWithPr(text: string) {
    exists front: string, digits: string :: IsPrSuffix(text, front, digits)
  }

  ghost predicate IsPrSuffix(text: string, front: string, digits: string) {
    digits != "" && (forall c :: c in digits ==> IsDigit(c)) && text == front + "(#" + digits + ")"
  }

  /** A number is taken from texts that end in one only. */
  lemma TakePrTakes(text: string)
    ensures TakePr(text) == Suffix(text, None) || EndsWithPr(text)
  {
    hide Trim, Value, DigitsAtEnd;
    if TakePr(text) != Suffix(text, None) {
      var n := |text| - 1;
      var inner := text[..n];
      var k := DigitsAtEnd(inner);
      var front, digits := inner[..|inner| - k], inner[|inner| - k..];
      assert text == inner + ")" && inner == front + digits;
      assert front == front[..|front| - 2] + "(#";
      assert IsPrSuffix(text, front[..|front| - 2], digits);
    }
  }

  /** Without a number at the end, the whole text is the entry's text. */
  lemma PlainSubjectReadsBack(kind: string, scope: Option<string>, breaking: bool, text: string)
    requires kind != "" && (forall c :: c in kind ==> IsWord(c)) && GroupOf(kind).Some?
    requires scope.Some? ==> ')' !in scope.value
    requires text != "" && Trimmed(text) && Lacks(text, IsLineEnd) && !EndsWithPr(text)
    requires !Skipped(Subject(kind, scope, breaking, text))
    ensures ParseCommitSubject(Subject(kind, scope, breaking, text)) == Some(Entry(GroupOf(kind).value, Capitalise(text), None))
  {
    hide Subject, MatchSubject, Skipped, GroupOf, TrimStart, TrimEnd, Trim, Lacks, TakePr;
    SubjectMatches(kind, scope, breaking, text);
    TrimmedStays(text);
    TakePrTakes(text);
  }

  lemma NoPrAtEnd(text: string)
    requires text != "" && text[|text| - 1] != ')'
    ensures !EndsWithPr(text)
  {
    forall front: string, digits: string ensures !IsPrSuffix(text, front, digits) {
      var t := front + "(#" + digits + ")";
      assert t[|t| - 1] == ')';
    }
  }

  // ----- which subjects are entries, and of which group -----

  lemma {:induction false} AfterParenSplits(s: string) returns (scope: string)
    requires AfterParen(s).Some?
    ensures ')' !in scope && s == scope + ")" + AfterParen(s).value
  {
    if s[0] == ')' {
      scope := "";
      assert s == ")" + s[1..];
    } else {
      var rest := AfterParenSplits(s[1..]);
      scope := [s[0]] + rest;
      assert s == [s[0]] + s[1..];
      assert scope + ")" + AfterParen(s).value == [s[0]] + (rest + ")" + AfterParen(s).value);
    }
  }

  lemma {:induction false} WordRunIsWord(s: string)
    ensures forall c :: c in WordRun(s) ==> IsWord(c)
  {
    if s != "" && IsWord(s[0]) { WordRunIsWord(s[1..]); }
  }

  /** Only subjects of the documented form are read, and what is read is their kind and
      their text, which is never empty. */
  lemma OnlyDocumentedMatch(subject: string) returns (scope: Option<string>, breaking: bool)
    requires MatchSubject(subject).Some?
    ensures var m := MatchSubject(subject).value;
      && subject == Subject(m.kind, scope, breaking, m.rest)
      && m.kind != "" && (forall c :: c in m.kind ==> IsWord(c)) && m.rest != "" && Lacks(m.rest, IsLineEnd)
      && (scope.Some? ==> ')' !in scope.value)
  {
    hide IsWord, IsLineEnd, Lacks, MatchSubject, WordRun, SkipScope, SkipBang;
    MatchParts(subject);
    var m := MatchSubject(subject).value;
    WordRunIsWord(subject);
    var tail;
    scope, tail := ScopeSplit(subject[|m.kind|..]);
    BangSplit(tail);
    breaking := tail != "" && tail[0] == '!';
    var s, b := if scope.Some? then "(" + scope.value + ")" else "", if breaking then "!" else "";
    assert subject == m.kind + (s + (b + (": " + m.rest)));
    assert m.kind + (s + (b + (": " + m.rest))) == m.kind + s + b + ": " + m.rest;
  }

  lemma MatchParts(subject: string)
    requires MatchSubject(subject).Some?
    ensures var m := MatchSubject(subject).value;
      && m.kind == WordRun(subject) && m.kind != "" && subject == m.kind + subject[|m.kind|..]
      && SkipBang(SkipScope(subject[|m.kind|..])) == ": " + m.rest && m.rest != "" && Lacks(m.rest, IsLineEnd)
  {
    hide WordRun, SkipScope, SkipBang, IsLineEnd, Lacks;
  }

  lemma BangSplit(tail: string)
    ensures tail == (if tail != "" && tail[0] == '!' then "!" else "") + SkipBang(tail)
  {
  }

  lemma ScopeSplit(s: string) returns (scope: Option<string>, tail: string)
    ensures tail == SkipScope(s) && s == (if scope.Some? then "(" + scope.value + ")" else "") + tail
    ensures scope.Some? ==> ')' !in scope.value
  {
    hide AfterParen;
    tail := SkipScope(s);
    if s != "" && s[0] == '(' && AfterParen(s[1..]).Some? {
      var inner := AfterParenSplits(s[1..]);
      scope := Some(inner);
      assert s == "(" + s[1..];
    } else {
      scope := None;
    }
  }

  /** A subject without a text is no entry. */
  lemma NoTextNoMatch(kind: string, scope: Option<string>, breaking: bool)
    requires kind != "" && (forall c :: c in kind ==> IsWord(c)) && (scope.Some? ==> ')' !in scope.value)
    ensures MatchSubject(Subject(kind, scope, breaking, "")) == None
  {
    hide WordRun, SkipScope;
    var tail := (if breaking then "!" else "") + ": ";
    var after := (if scope.Some? then "(" + scope.value + ")" else "") + tail;
    assert Subject(kind, scope, breaking, "") == kind + after;
    WordRunEnds(kind, after);
    assert (kind + after)[|kind|..] == after;
    SkipScopeFinds(scope, tail);
  }

  /** The kinds the release notes know, with their groups; longer words that start
      like one of them count as well. */
  lemma KnownKinds(rest: string)
    ensures GroupOf("feat" + rest) == Some("Features") && GroupOf("fix" + rest) == Some("Bug Fixes")
    ensures GroupOf("doc" + rest) == Some("Documentation") && GroupOf("perf" + rest) == Some("Performance")
    ensures GroupOf("refactor" + rest) == Some("Refactor") && GroupOf("style" + rest) == Some("Styling")
    ensures GroupOf("test" + rest) == Some("Testing") && GroupOf("revert" + rest) == Some("Revert")
    ensures GroupOf("chore" + rest) == Some("Miscellaneous Tasks") && GroupOf("ci" + rest) == Some("Miscellaneous Tasks")
  {
    hide GroupOf;
    FirstKinds(rest);
    MoreKinds(rest);
    LastKinds(rest);
  }

  lemma FirstKinds(rest: string)
    ensures GroupOf("feat" + rest) == Some("Features") && GroupOf("fix" + rest) == Some("Bug Fixes")
    ensures GroupOf("doc" + rest) == Some("Documentation") && GroupOf("perf" + rest) == Some("Performance")
  {
    KnownKind("feat", rest);
    KnownKind("fix", rest);
    KnownKind("doc", rest);
    KnownKind("perf", rest);
  }

  lemma MoreKinds(rest: string)
    ensures GroupOf("refactor" + rest) == Some("Refactor") && GroupOf("style" + rest) == Some("Styling")
    ensures GroupOf("test" + rest) == Some("Testing")
  {
    KnownKind("refactor", rest);
    KnownKind("style", rest);
    KnownKind("test", rest);
  }

  lemma LastKinds(rest: string)
    ensures GroupOf("revert" + rest) == Some("Revert")
    ensures GroupOf("chore" + rest) == Some("Miscellaneous Tasks") && GroupOf("ci" + rest) == Some("Miscellaneous Tasks")
  {
    KnownKind("revert", rest);
    KnownKind("chore", rest);
    KnownKind("ci", rest);
  }

  lemma KnownKind(kind: string, rest: string)
    requires |kind| >= 2
    ensures kind <= kind + rest && (kind + rest)[0] == kind[0] && (kind + rest)[1] == kind[1]
    ensures |kind| >= 3 ==> (kind + rest)[2] == kind[2]
  {
  }

  /** No other word is a kind. */
  lemma OtherKinds(kind: string)
    requires GroupOf(kind).Some?
    ensures "feat" <= kind || "fix" <= kind || "doc" <= kind || "perf" <= kind || "refactor" <= kind
      || "style" <= kind || "test" <= kind || "chore" <= kind || "ci" <= kind || "revert" <= kind
  {
  }

  /** Release bookkeeping is never an entry. */
  lemma BookkeepingIsSkipped(front: string, rest: string)
    requires front in {"chore(release)", "chore(deps)", "chore(pr)", "chore(pull)", "chore: release ", "chore: sync "}
    ensures ParseCommitSubject(front + rest) == None
  {
    assert front <= front + rest;
  }

  /** A subject that is not bookkeeping, of a known kind, is one. */
  lemma OthersAreNotSkipped(subject: string)
    requires subject != "" && subject[0] != 'c'
    ensures !Skipped(subject)
  {
  }

  lemma ScopeIs(word: string, scope: string, rest: string)
    requires ')' !in scope && ')' !in word && "chore(" + word + ")" <= "chore(" + scope + ")" + rest
    ensures scope == word
  {
    var s, p := "chore(" + scope + ")" + rest, "chore(" + word + ")";
    assert s[6 + |scope|] == ')' && p[6 + |word|] == ')';
    assert forall i :: 0 <= i < |scope| ==> s[6 + i] == scope[i] && scope[i] in scope;
    assert forall i :: 0 <= i < |word| ==> p[6 + i] == word[i] && word[i] in word;
    assert forall i :: 0 <= i < |p| ==> p[i] == s[i];
    assert |scope| == |word|;
    assert forall i :: 0 <= i < |word| ==> word[i] == scope[i];
  }

  /** Chores of any other scope are not skipped. */
  lemma OtherChoresAreKept(scope: string, rest: string)
    requires ')' !in scope && scope !in {"release", "deps", "pr", "pull"}
    ensures !Skipped("chore(" + scope + ")" + rest)
  {
    var s := "chore(" + scope + ")" + rest;
    assert s[5] == '(';
    if "chore(release)" <= s { ScopeIs("release", scope, rest); }
    if "chore(deps)" <= s { ScopeIs("deps", scope, rest); }
    if "chore(pr)" <= s { ScopeIs("pr", scope, rest); }
    if "chore(pull)" <= s { ScopeIs("pull", scope, rest); }
  }

  /** Capitalising changes at most the case of the first letter. */
  lemma CapitaliseKeepsRest(s: string)
    ensures var c := Capitalise(s);
      && |c| == |s|
      && (s != "" ==> c[1..] == s[1..] && !('a' <= c[0] <= 'z'))
      && (s != "" && 'a' <= s[0] <= 'z' ==> c[0] as int == s[0] as int - 32)
      && (s != "" && !('a' <= s[0] <= 'z') ==> c[0] == s[0])
  {
  }

  /** A bullet is a dash and the text, and for a pull request, numbered from one, the
      link to it. */
  lemma BulletReads(e: Entry)
    ensures e.pr.None? || e.pr.value == 0 ==> Bullet(e) == "- " + e.text
    ensures e.pr.Some? && e.pr.value > 0 ==>
      var n, repo := Decimal(e.pr.value), "https://github.com/UmaiTech/aura-llm-gateway";
      Bullet(e) == "- " + e.text + " ([#" + n + "](" + repo + "/pull/" + n + "))"
  {
    hide Decimal;
  }

  // ----- subjects of this repository -----

  /** `feat(admin,landing): link pages (#252)`, `fix!: drop x` and four that are no entries. */
  lemma Examples()
    ensures ParseCommitSubject("feat(admin,landing): link pages (#252)") == Some(Entry("Features", "Link pages", Some(252)))
    ensures ParseCommitSubject("fix!: drop x") == Some(Entry("Bug Fixes", "Drop x", None))
    ensures ParseCommitSubject("chore: release v0.21.2") == None
    ensures ParseCommitSubject("chore: sync SDK versions to 0.21.2") == None
    ensures ParseCommitSubject("chore(deps): bump x") == None
    ensures ParseCommitSubject("Update file.tsx") == None
  {
    hide *;
    NumberedExample();
    PlainExample();
    BookkeepingIsSkipped("chore: release ", "v0.21.2");
    assert "chore: release " + "v0.21.2" == "chore: release v0.21.2";
    BookkeepingIsSkipped("chore: sync ", "SDK versions to 0.21.2");
    assert "chore: sync " + "SDK versions to 0.21.2" == "chore: sync SDK versions to 0.21.2";
    BookkeepingIsSkipped("chore(deps)", ": bump x");
    assert "chore(deps)" + ": bump x" == "chore(deps): bump x";
    NoColon();
  }

  lemma NumberedExample()
    ensures ParseCommitSubject("feat(admin,landing): link pages (#252)") == Some(Entry("Features", "Link pages", Some(252)))
  {
    hide *;
    NumberedParts();
    NumberedText();
    NumberedCapital();
    SubjectReadsBack("feat", Some("admin,landing"), false, "link pages", 252);
  }

  lemma NumberedParts()
    ensures (forall c :: c in "feat" ==> IsWord(c)) && ')' !in "admin,landing"
    ensures Trimmed("link pages") && Lacks("link pages", IsLineEnd)
    ensures GroupOf("feat") == Some("Features")
  {
    hide Capitalise, Subject, WithPr, Skipped;
  }

  lemma NumberedCapital()
    ensures Capitalise("link pages") == "Link pages"
  {
    assert "link pages"[1..] == "ink pages";
  }

  lemma NumberedText()
    ensures Subject("feat", Some("admin,landing"), false, WithPr("link pages", 252)) == "feat(admin,landing): link pages (#252)"
    ensures !Skipped("feat(admin,landing): link pages (#252)")
  {
    hide Subject, WithPr, Skipped;
    NumberedEnd();
    NumberedWhole();
    OthersAreNotSkipped("feat(admin,landing): link pages (#252)");
  }

  lemma NumberedEnd()
    ensures WithPr("link pages", 252) == "link pages (#252)"
  {
    hide Decimal;
    DecimalExample();
  }

  lemma NumberedWhole()
    ensures Subject("feat", Some("admin,landing"), false, "link pages (#252)") == "feat(admin,landing): link pages (#252)"
  {
    assert "feat" + "(" + "admin,landing" + ")" == "feat(admin,landing)";
  }

  lemma DecimalExample()
    ensures Decimal(252) == "252"
  {
    assert Decimal(2) == "2";
    assert Decimal(25) == "25";
  }

  lemma PlainExample()
    ensures ParseCommitSubject("fix!: drop x") == Some(Entry("Bug Fixes", "Drop x", None))
  {
    hide *;
    PlainParts();
    PlainText();
    NoPrAtEnd("drop x");
    PlainSubjectReadsBack("fix", None, true, "drop x");
  }

  lemma PlainParts()
    ensures (forall c :: c in "fix" ==> IsWord(c)) && Trimmed("drop x") && Lacks("drop x", IsLineEnd)
    ensures GroupOf("fix") == Some("Bug Fixes") && Capitalise("drop x") == "Drop x"
  {
    assert "drop x"[1..] == "rop x";
  }

  lemma PlainText()
    ensures Subject("fix", None, true, "drop x") == "fix!: drop x" && !Skipped("fix!: drop x")
  {
    OthersAreNotSkipped("fix!: drop x");
  }

  lemma NoColon()
    ensures ParseCommitSubject("Update file.tsx") == None
  {
    hide WordRun, TrimStart, TrimEnd, Trim, TakePr, Decimal, SkipScope, SkipBang;
    var s := "Update file.tsx";
    WordRunEnds("Update", " file.tsx");
    assert s == "Update" + " file.tsx";
    assert WordRun(s) == "Update" && s[6..] == " file.tsx";
    assert SkipScope(" file.tsx") == " file.tsx" by { NoScope(" file.tsx"); }
    assert SkipBang(" file.tsx") == " file.tsx" by { NoBang(" file.tsx"); }
  }

  lemma NoScope(s: string)
    requires s != "" && s[0] != '('
    ensures SkipScope(s) == s
  {
  }

  lemma NoBang(s: string)
    requires s != "" && s[0] != '!'
    ensures SkipBang(s) == s
  {
  }
}
