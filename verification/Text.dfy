/** The few string operations the release scripts rely on. */
module Text {
  // ----- characters -----

  predicate IsDigit(c: char) { '0' <= c <= '9' }

  predicate IsLetter(c: char) { 'a' <= c <= 'z' || 'A' <= c <= 'Z' }

  /** \w */
  predicate IsWord(c: char) { IsDigit(c) || IsLetter(c) || c == '_' }

  /** What `.` in a pattern does not match. */
  predicate IsLineEnd(c: char) { c in {'\n', '\r', '\U{2028}', '\U{2029}'} }

  /** \s, and what trim removes. */
  predicate IsSpace(c: char) {
    IsLineEnd(c) || c in {' ', '\t', '\U{0B}', '\U{0C}', '\U{A0}', '\U{1680}', '\U{202F}', '\U{205F}', '\U{3000}', '\U{FEFF}'}
    || '\U{2000}' <= c <= '\U{200A}'
  }

  function Lower(c: char): char { if 'A' <= c <= 'Z' then (c as int + 32) as char else c }

  function Upper(c: char): char { if 'a' <= c <= 'z' then (c as int - 32) as char else c }

  const LOWER_CASE := "abcdefghijklmnopqrstuvwxyz"
  const UPPER_CASE := "ABCDEFGHIJKLMNOPQRSTUVWXYZ"

  lemma LetterAt(i: nat)
    requires i < 26
    ensures LOWER_CASE[i] == ('a' as int + i) as char && UPPER_CASE[i] == ('A' as int + i) as char
  {
  }

  /** The two cases of the alphabet correspond letter by letter, and nothing else has one. */
  lemma CasesCorrespond(i: nat, c: char)
    requires i < 26
    ensures Lower(UPPER_CASE[i]) == Lower(LOWER_CASE[i]) == LOWER_CASE[i]
    ensures Upper(LOWER_CASE[i]) == Upper(UPPER_CASE[i]) == UPPER_CASE[i]
    ensures c !in UPPER_CASE ==> Lower(c) == c
    ensures c !in LOWER_CASE ==> Upper(c) == c
  {
    LetterAt(i);
    if 'A' <= c <= 'Z' { LetterAt(c as int - 'A' as int); }
    if 'a' <= c <= 'z' { LetterAt(c as int - 'a' as int); }
  }

  lemma LowerCase(c: char)
    ensures c in LOWER_CASE <==> 'a' <= c <= 'z'
  {
    if 'a' <= c <= 'z' { LetterAt(c as int - 'a' as int); }
    if c in LOWER_CASE {
      var i :| 0 <= i < 26 && LOWER_CASE[i] == c;
      LetterAt(i);
    }
  }

  lemma UpperCase(c: char)
    ensures c in UPPER_CASE <==> 'A' <= c <= 'Z'
  {
    if 'A' <= c <= 'Z' { LetterAt(c as int - 'A' as int); }
    if c in UPPER_CASE {
      var i :| 0 <= i < 26 && UPPER_CASE[i] == c;
      LetterAt(i);
    }
  }

  lemma TenDigits(c: char)
    ensures c in "0123456789" <==> IsDigit(c)
  {
    if IsDigit(c) { assert "0123456789"[c as int - '0' as int] == c; }
  }

  /** Word characters are the letters, the ten digits and the underscore. */
  lemma WordCharacters(c: char)
    ensures IsWord(c) <==> c in LOWER_CASE || c in UPPER_CASE || c in "0123456789" || c == '_'
  {
    LowerCase(c);
    UpperCase(c);
    TenDigits(c);
  }

  /** White space and line ends by code point, as sections 12.2 and 12.3 of ECMA-262
      list them. */
  lemma WhiteSpaceByCode(c: char)
    ensures IsLineEnd(c) <==> c as int in {10, 13, 8232, 8233}
    ensures IsSpace(c) <==>
      c as int in {9, 10, 11, 12, 13, 32, 160, 5760, 8232, 8233, 8239, 8287, 12288, 65279} || 8192 <= c as int <= 8202
  {
  }

  predicate Lacks(s: string, bad: char -> bool) { forall c :: c in s ==> !bad(c) }

  predicate Blank(s: string) { forall c :: c in s ==> IsSpace(c) }

  // ----- trimming -----

  function TrimStart(s: string): (r: string)
    ensures r != "" ==> !IsSpace(r[0])
    ensures forall c :: c in r ==> c in s
  {
    if s != "" && IsSpace(s[0]) then TrimStart(s[1..]) else s
  }

  function TrimEnd(s: string): (r: string)
    ensures r <= s
    ensures r != "" ==> !IsSpace(r[|r| - 1])
  {
    if s != "" && IsSpace(s[|s| - 1]) then TrimEnd(s[..|s| - 1]) else s
  }

  function Trim(s: string): (r: string)
    ensures forall c :: c in r ==> c in s
  {
    TrimEnd(TrimStart(s))
  }

  /** Neither end is white space. */
  predicate Trimmed(s: string) { s == "" || (!IsSpace(s[0]) && !IsSpace(s[|s| - 1])) }

  lemma {:induction false} TrimStartCuts(s: string) returns (a: string)
    ensures s == a + TrimStart(s) && Blank(a)
  {
    hide IsSpace;
    if s != "" && IsSpace(s[0]) {
      var rest := TrimStartCuts(s[1..]);
      a := [s[0]] + rest;
      assert s == [s[0]] + s[1..];
    } else {
      a := "";
    }
  }

  lemma {:induction false} TrimEndCuts(s: string) returns (b: string)
    ensures s == TrimEnd(s) + b && Blank(b)
  {
    hide IsSpace;
    if s != "" && IsSpace(s[|s| - 1]) {
      var n := |s| - 1;
      var rest := TrimEndCuts(s[..n]);
      b := rest + [s[n]];
      assert s == s[..n] + [s[n]];
    } else {
      b := "";
    }
  }

  /** Trimming cuts white space off both ends, and all of it. */
  lemma TrimCuts(s: string) returns (a: string, b: string)
    ensures s == a + Trim(s) + b && Blank(a) && Blank(b) && Trimmed(Trim(s))
  {
    hide IsSpace, TrimStart, TrimEnd;
    a := TrimStartCuts(s);
    b := TrimEndCuts(TrimStart(s));
    assert a + (Trim(s) + b) == a + Trim(s) + b;
  }

  lemma TrimmedStays(s: string)
    requires Trimmed(s)
    ensures Trim(s) == s
  {
  }

  // ----- lines -----

  function Split(s: string): (r: seq<string>)
    ensures |r| >= 1
  {
    if s == "" then [""] else
      var t := Split(s[1..]);
      if s[0] == '\n' then [""] + t else [[s[0]] + t[0]] + t[1..]
  }

  function Join(lines: seq<string>): string {
    if lines == [] then "" else if |lines| == 1 then lines[0] else lines[0] + "\n" + Join(lines[1..])
  }

  predicate OneLine(s: string) { '\n' !in s }

  predicate AllOneLine(lines: seq<string>) { forall l :: l in lines ==> OneLine(l) }

  lemma JoinBlank(t: seq<string>)
    requires t != []
    ensures Join([""] + t) == "\n" + Join(t)
  {
    hide Split;
    assert ([""] + t)[1..] == t;
  }

  lemma JoinLonger(c: char, t: seq<string>)
    requires t != []
    ensures Join([[c] + t[0]] + t[1..]) == [c] + Join(t)
  {
    var r := [[c] + t[0]] + t[1..];
    assert r[1..] == t[1..];
    if |t| > 1 { assert [c] + t[0] + "\n" + Join(t[1..]) == [c] + (t[0] + "\n" + Join(t[1..])); }
  }

  lemma LongerLines(c: char, t: seq<string>)
    requires t != [] && AllOneLine(t) && c != '\n'
    ensures AllOneLine([[c] + t[0]] + t[1..])
  {
    var r := [[c] + t[0]] + t[1..];
    forall l | l in r ensures OneLine(l) {
      if l != r[0] { assert l in t; } else { assert t[0] in t; }
    }
  }

  lemma {:induction false} JoinSplit(s: string)
    ensures Join(Split(s)) == s
    ensures AllOneLine(Split(s))
  {
    if s != "" {
      hide Join, AllOneLine;
      JoinSplit(s[1..]);
      var t := Split(s[1..]);
      assert s == [s[0]] + s[1..];
      if s[0] == '\n' {
        JoinBlank(t);
        BlankLines(t);
      } else {
        JoinLonger(s[0], t);
        LongerLines(s[0], t);
      }
    }
  }

  lemma BlankLines(t: seq<string>)
    requires AllOneLine(t)
    ensures AllOneLine([""] + t)
  {
  }

  lemma {:induction false} SplitPrepend(line: string, rest: string)
    requires OneLine(line)
    ensures Split(line + "\n" + rest) == [line] + Split(rest)
  {
    if line == "" {
      assert ("" + "\n" + rest)[1..] == rest;
    } else {
      SplitPrepend(line[1..], rest);
      assert (line + "\n" + rest)[1..] == line[1..] + "\n" + rest;
      assert [line[0]] + line[1..] == line;
    }
  }

  lemma {:induction false} SplitOneLine(line: string)
    requires OneLine(line)
    ensures Split(line) == [line]
  {
    if line != "" {
      SplitOneLine(line[1..]);
      assert [line[0]] + line[1..] == line;
    }
  }

  lemma {:induction false} SplitJoin(lines: seq<string>)
    requires lines != [] && AllOneLine(lines)
    ensures Split(Join(lines)) == lines
  {
    assert lines[0] in lines;
    if |lines| == 1 {
      SplitOneLine(lines[0]);
    } else {
      assert forall l :: l in lines[1..] ==> l in lines;
      SplitJoin(lines[1..]);
      SplitPrepend(lines[0], Join(lines[1..]));
    }
  }

  // ----- decimal numbers -----

  function DigitRun(s: string): (r: string)
    ensures r <= s && forall c :: c in r ==> IsDigit(c)
  {
    if s != "" && IsDigit(s[0]) then [s[0]] + DigitRun(s[1..]) else ""
  }

  function Value(digits: string): nat
    requires forall c :: c in digits ==> IsDigit(c)
  {
    if digits == "" then 0 else
      assert digits[|digits| - 1] in digits && IsDigit(digits[|digits| - 1]);
      10 * Value(digits[..|digits| - 1]) + (digits[|digits| - 1] as int - '0' as int)
  }

  function Decimal(n: nat): (r: string)
    ensures r != "" && forall c :: c in r ==> IsDigit(c)
  {
    (if n < 10 then "" else Decimal(n / 10)) + [('0' as int + n % 10) as char]
  }

  lemma {:induction false} ValueOfDecimal(n: nat)
    ensures Value(Decimal(n)) == n
  {
    var d := ('0' as int + n % 10) as char;
    if n < 10 {
      assert Decimal(n) == [d] && [d][..0] == "";
    } else {
      ValueOfDecimal(n / 10);
      assert Decimal(n)[..|Decimal(n)| - 1] == Decimal(n / 10);
    }
  }

  lemma {:induction false} DigitRunEnds(digits: string, rest: string)
    requires forall c :: c in digits ==> IsDigit(c)
    requires rest == "" || !IsDigit(rest[0])
    ensures DigitRun(digits + rest) == digits
  {
    if digits == "" {
      assert "" + rest == rest;
    } else {
      assert digits[0] in digits;
      assert (digits + rest)[1..] == digits[1..] + rest;
      DigitRunEnds(digits[1..], rest);
    }
  }

  // ----- pull request references -----

  /** Every number that follows a `#`. */
  function PrRefs(s: string): set<nat> {
    if s == "" then {}
    else RefAt(s) + PrRefs(s[1..])
  }

  function RefAt(s: string): set<nat>
    requires s != ""
  {
    if s[0] == '#' && DigitRun(s[1..]) != "" then {Value(DigitRun(s[1..]))} else {}
  }

  lemma {:induction false} DigitRunLocal(s: string, rest: string)
    requires rest == "" || !IsDigit(rest[0])
    ensures DigitRun(s + rest) == DigitRun(s)
  {
    if s == "" {
      assert "" + rest == rest;
    } else {
      assert (s + rest)[1..] == s[1..] + rest;
      DigitRunLocal(s[1..], rest);
    }
  }

  lemma {:induction false} PrRefsAppend(s: string, rest: string)
    requires rest == "" || !IsDigit(rest[0])
    ensures PrRefs(s + rest) == PrRefs(s) + PrRefs(rest)
  {
    if s == "" {
      assert "" + rest == rest;
    } else {
      assert (s + rest)[0] == s[0] && (s + rest)[1..] == s[1..] + rest;
      DigitRunLocal(s[1..], rest);
      PrRefsAppend(s[1..], rest);
    }
  }

  /** A reference written after any text is read back. */
  lemma RefReadBack(before: string, n: nat, rest: string)
    requires rest == "" || !IsDigit(rest[0])
    ensures n in PrRefs(before + "#" + Decimal(n) + rest)
  {
    hide Decimal, DigitRun, Value, PrRefs, RefAt;
    var tail := "#" + Decimal(n) + rest;
    RefStarts(n, rest);
    PrRefsAppend(before, tail);
    assert before + "#" + Decimal(n) + rest == before + tail;
  }

  lemma RefStarts(n: nat, rest: string)
    requires rest == "" || !IsDigit(rest[0])
    ensures n in PrRefs("#" + Decimal(n) + rest)
  {
    hide Decimal, DigitRun, Value;
    var d := Decimal(n);
    var tail := "#" + d + rest;
    assert tail[1..] == d + rest;
    DigitRunEnds(d, rest);
    ValueOfDecimal(n);
    assert n in RefAt(tail);
  }

  function RefsOf(lines: seq<string>): set<nat> {
    if lines == [] then {} else PrRefs(lines[0]) + RefsOf(lines[1..])
  }

  lemma {:induction false} RefsOfJoin(lines: seq<string>)
    ensures PrRefs(Join(lines)) == RefsOf(lines)
  {
    hide DigitRun, Value;
    if |lines| == 1 {
      assert lines[1..] == [];
    } else if lines != [] {
      RefsOfJoin(lines[1..]);
      var rest := "\n" + Join(lines[1..]);
      PrRefsAppend(lines[0], rest);
      assert lines[0] + "\n" + Join(lines[1..]) == lines[0] + rest;
      assert rest[1..] == Join(lines[1..]);
    }
  }

  lemma {:induction false} RefsOfMember(lines: seq<string>, l: string)
    requires l in lines
    ensures PrRefs(l) <= RefsOf(lines)
  {
    if l != lines[0] { RefsOfMember(lines[1..], l); }
  }

  lemma {:induction false} RefsOfFrom(lines: seq<string>, n: nat)
    requires n in RefsOf(lines)
    ensures exists l :: l in lines && n in PrRefs(l)
  {
    if n in PrRefs(lines[0]) {
      assert lines[0] in lines;
    } else {
      RefsOfFrom(lines[1..], n);
      var l :| l in lines[1..] && n in PrRefs(l);
      assert l in lines;
    }
  }

  // ----- text compared without case and punctuation -----

  predicate Plain(c: char) { 'a' <= Lower(c) <= 'z' || IsDigit(c) }

  /** Lower case, each run of anything but a-z and 0-9 one space, trimmed. */
  function Normalize(s: string): string {
    if s == "" then ""
    else if !Plain(s[0]) then Normalize(s[1..])
    else if |s| > 1 && Plain(s[1]) then [Lower(s[0])] + Normalize(s[1..])
    else Glue([Lower(s[0])], Normalize(s[1..]))
  }

  function Glue(x: string, y: string): string {
    if x == "" then y else if y == "" then x else x + " " + y
  }

  lemma GlueAssociative(x: string, y: string, z: string)
    ensures Glue(Glue(x, y), z) == Glue(x, Glue(y, z))
  {
    if x != "" && y != "" && z != "" {
      assert x + " " + y + " " + z == x + " " + (y + " " + z);
    }
  }

  /** Any other character separates words. */
  lemma {:induction false} NormalizeSplit(a: string, c: char, b: string)
    requires !Plain(c)
    ensures Normalize(a + [c] + b) == Glue(Normalize(a), Normalize(b))
  {
    hide Plain, Glue;
    var s := a + [c] + b;
    if a == "" {
      assert s[1..] == b;
      GlueNothing(Normalize(b));
    } else {
      NormalizeSplit(a[1..], c, b);
      assert s[0] == a[0] && s[1..] == a[1..] + [c] + b;
      if Plain(a[0]) { NormalizePlain(a, c, b); }
    }
  }

  lemma NewlineIsNotPlain()
    ensures !Plain('\n')
  {
  }

  lemma GlueNothing(x: string)
    ensures Glue("", x) == x
  {
  }

  /** A plain character in front joins the word after it or starts one of its own. */
  lemma NormalizePlain(a: string, c: char, b: string)
    requires a != "" && Plain(a[0]) && !Plain(c)
    requires Normalize(a[1..] + [c] + b) == Glue(Normalize(a[1..]), Normalize(b))
    ensures Normalize(a + [c] + b) == Glue(Normalize(a), Normalize(b))
  {
    hide Plain;
    var s := a + [c] + b;
    assert s[0] == a[0] && s[1..] == a[1..] + [c] + b;
    if |a| == 1 {
      assert a[1..] == "" && s[1] == c;
    } else {
      assert s[1] == a[1];
      if Plain(a[1]) {
        PlainIsKept(a[1..]);
      } else {
        GlueAssociative([Lower(a[0])], Normalize(a[1..]), Normalize(b));
      }
    }
  }

  /** A word keeps its letters and digits, in lower case. */
  lemma {:induction false} NormalizeWord(w: string, i: nat)
    requires i < |w| && forall c :: c in w ==> Plain(c)
    ensures |Normalize(w)| == |w| && Normalize(w)[i] == Lower(w[i])
  {
    hide Plain, Lower;
    assert w[0] in w && forall c :: c in w[1..] ==> c in w;
    if |w| == 1 {
      assert w[1..] == "" && Normalize("") == "";
    } else {
      assert w[1] in w;
      NormalizeWord(w[1..], if i == 0 then 0 else i - 1);
    }
  }

  /** Words are made of letters and digits, in either case. */
  lemma PlainCharacters(c: char)
    ensures Plain(c) <==> c in LOWER_CASE || c in UPPER_CASE || c in "0123456789"
  {
    LowerCase(c);
    UpperCase(c);
    TenDigits(c);
  }

  lemma PlainIsKept(s: string)
    requires s != "" && Plain(s[0])
    ensures Normalize(s) != ""
  {
  }

  /** The normalised lines one after another. */
  function NormalizeAll(lines: seq<string>): string {
    if lines == [] then "" else Glue(Normalize(lines[0]), NormalizeAll(lines[1..]))
  }

  lemma {:induction false} NormalizeJoin(lines: seq<string>)
    ensures Normalize(Join(lines)) == NormalizeAll(lines)
  {
    if |lines| == 1 {
      assert lines[1..] == [];
    } else if lines != [] {
      NormalizeJoin(lines[1..]);
      NewlineIsNotPlain();
      assert lines[0] + ['\n'] + Join(lines[1..]) == Join(lines);
      NormalizeSplit(lines[0], '\n', Join(lines[1..]));
    }
  }

  predicate Includes(s: string, part: string) {
    exists i :: 0 <= i <= |s| - |part| && s[i..][..|part|] == part
  }

  lemma IncludedIn(before: string, part: string, after: string)
    ensures Includes(before + part + after, part)
  {
    var s := before + part + after;
    assert s[|before|..][..|part|] == part;
  }

  lemma IncludesTransitive(s: string, mid: string, part: string)
    requires Includes(s, mid) && Includes(mid, part)
    ensures Includes(s, part)
  {
    var i :| 0 <= i <= |s| - |mid| && s[i..][..|mid|] == mid;
    var j :| 0 <= j <= |mid| - |part| && mid[j..][..|part|] == part;
    var x, y := s[i + j..][..|part|], s[i..][..|mid|][j..][..|part|];
    forall k | 0 <= k < |part| ensures x[k] == y[k] {
      assert x[k] == s[i + j + k];
      assert s[i..][..|mid|][j + k] == s[i + j + k];
    }
    assert x == y;
  }

  lemma GlueIncludes(x: string, y: string)
    ensures Includes(Glue(x, y), x) && Includes(Glue(x, y), y)
  {
    if x == "" {
      IncludedIn("", "", y);
      IncludedIn("", y, "");
      assert "" + "" + y == y && "" + y + "" == y;
    } else if y == "" {
      IncludedIn("", x, "");
      IncludedIn("", "", x);
      assert "" + x + "" == x && "" + "" + x == x;
    } else {
      IncludedIn("", x, " " + y);
      IncludedIn(x + " ", y, "");
      assert "" + x + (" " + y) == x + " " + y && x + " " + y + "" == x + " " + y;
    }
  }

  /** What one line holds, the text as a whole holds. */
  lemma {:induction false} NormalizeMember(lines: seq<string>, l: string, part: string)
    requires l in lines && Includes(Normalize(l), part)
    ensures Includes(NormalizeAll(lines), part)
  {
    var x, y := Normalize(lines[0]), NormalizeAll(lines[1..]);
    GlueIncludes(x, y);
    if l == lines[0] {
      IncludesTransitive(Glue(x, y), x, part);
    } else {
      NormalizeMember(lines[1..], l, part);
      IncludesTransitive(Glue(x, y), y, part);
    }
  }

  // ----- alphabetical order -----

  predicate StringLeq(a: string, b: string) {
    a == "" || (b != "" && (a[0] < b[0] || (a[0] == b[0] && StringLeq(a[1..], b[1..]))))
  }

  lemma {:induction false} StringLeqTotal(a: string, b: string)
    ensures StringLeq(a, b) || StringLeq(b, a)
  {
    if a != "" && b != "" && a[0] == b[0] { StringLeqTotal(a[1..], b[1..]); }
  }

  lemma {:induction false} StringLeqTransitive(a: string, b: string, c: string)
    requires StringLeq(a, b) && StringLeq(b, c)
    ensures StringLeq(a, c)
  {
    if a != "" && b != "" && c != "" && a[0] == b[0] == c[0] { StringLeqTransitive(a[1..], b[1..], c[1..]); }
  }
}
